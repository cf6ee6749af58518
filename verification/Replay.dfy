/**
  Deterministic replay: the replicas take turns at the actions of a file, coordinated by a shared turn
  number and a lock key, and the actions drive an operation-based counter.
  */
module Replay {

  datatype Kind = Inc | Dec | Broadcast

  /** One line of the file: what to do, which replica does it, and at which turn. */
  datatype Action = Action(kind: Kind, id: nat, time: int)

  // ---------- the counter ----------

  /** What an operation adds to the counter; a name that is neither of the two adds nothing. */
  function Delta(k: Kind): int {
    match k
    case Inc => 1
    case Dec => -1
    case Broadcast => 0
  }

  function Net(updates: seq<Kind>): int {
    if updates == [] then 0 else Net(updates[..|updates| - 1]) + Delta(updates[|updates| - 1])
  }

  lemma NetSnoc(updates: seq<Kind>, k: Kind)
    ensures Net(updates + [k]) == Net(updates) + Delta(k)
  {
    assert (updates + [k])[..|updates|] == updates;
  }

  /** The increments less the decrements. */
  lemma {:induction false} NetCounts(updates: seq<Kind>)
    ensures Net(updates) == (multiset(updates)[Inc] as int) - (multiset(updates)[Dec] as int)
  {
    if updates != [] {
      var n := |updates| - 1;
      NetCounts(updates[..n]);
      assert updates == updates[..n] + [updates[n]];
    }
  }

  class Counter {
    const id: nat
    var value: int
    var updates: seq<Kind>

    constructor (id: nat)
      ensures this.id == id && value == 0 && updates == []
    {
      this.id, value, updates := id, 0, [];
    }

    method Inc()
      modifies this
      ensures value == old(value) + Delta(Kind.Inc) && updates == old(updates) + [Kind.Inc]
    {
      SetVal(value + 1, Kind.Inc);
    }

    method Dec()
      modifies this
      ensures value == old(value) + Delta(Kind.Dec) && updates == old(updates) + [Kind.Dec]
    {
      SetVal(value - 1, Kind.Dec);
    }

    method SetVal(newVal: int, name: Kind)
      modifies this
      ensures value == newVal && updates == old(updates) + [name]
    {
      value := newVal;
      updates := updates + [name];
    }

    method SetRemoteVal(name: Kind)
      modifies this`value
      ensures value == old(value) + Delta(name)
    {
      if name == Kind.Inc {
        value := value + 1;
      } else if name == Kind.Dec {
        value := value - 1;
      }
    }

    /** A received list of updates is applied and not passed on. */
    method Merge(remote: seq<Kind>)
      modifies this`value
      ensures value == old(value) + Net(remote)
    {
      for i := 0 to |remote|
        invariant value == old(value) + Net(remote[..i])
      {
        SetRemoteVal(remote[i]);
        NetSnoc(remote[..i], remote[i]);
        assert remote[..i + 1] == remote[..i] + [remote[i]];
      }
      assert remote[..|remote|] == remote;
    }

    /** The message carries the updates since the last one, and the list starts anew. */
    method ToMarshal() returns (data: seq<Kind>)
      modifies this`updates
      ensures data == old(updates) && updates == []
    {
      data := updates;
      updates := [];
    }
  }

  // ---------- the protocol ----------

  /** Where a replica is with its next action: polling the turn, then lock, act, unlock, next turn. */
  datatype Phase = Polling | Locking | Acting | Unlocking | Advancing

  datatype Replica = Replica(at: nat, phase: Phase, seen: int, value: int, updates: seq<Kind>)

  datatype Message = Message(to: nat, updates: seq<Kind>)

  /** The shared turn number and lock key, the replicas, the messages under way, and what was done. */
  datatype State = State(turn: int, locked: bool, replicas: seq<Replica>, net: seq<Message>, log: seq<Action>)

  datatype Step =
    | Get(r: nat)
    | SetNx(r: nat)
    | Act(r: nat)
    | Del(r: nat)
    | Set(r: nat)
    | Expire
    | Deliver(k: nat)

  type File = seq<Action>

  predicate Numbered(file: File) {
    forall k :: 0 <= k < |file| ==> file[k].time == k + 1
  }

  /** The replica passes over the actions of others. */
  function NextOwn(file: File, i: nat, r: nat): (k: nat)
    requires i <= |file|
    ensures i <= k <= |file|
    ensures k < |file| ==> file[k].id == r
    ensures forall j :: i <= j < k ==> file[j].id != r
    decreases |file| - i
  {
    if i == |file| || file[i].id == r then i else NextOwn(file, i + 1, r)
  }

  predicate InPhase(file: File, s: State, r: nat, phase: Phase) {
    r < |s.replicas| && s.replicas[r].at < |file| && s.replicas[r].phase == phase
  }

  predicate Enabled(file: File, s: State, step: Step) {
    match step
    case Get(r) => InPhase(file, s, r, Polling)
    case SetNx(r) => InPhase(file, s, r, Locking)
    case Act(r) => InPhase(file, s, r, Acting)
    case Del(r) => InPhase(file, s, r, Unlocking)
    case Set(r) => InPhase(file, s, r, Advancing)
    case Expire => true
    case Deliver(k) => k < |s.net| && s.net[k].to < |s.replicas|
  }

  function With(s: State, r: nat, x: Replica): State
    requires r < |s.replicas|
  {
    s.(replicas := s.replicas[r := x])
  }

  /** One message to every replica but the sender. */
  function Sends(from: nat, updates: seq<Kind>, n: nat): seq<Message> {
    if n == 0 then []
    else Sends(from, updates, n - 1) + (if n - 1 == from then [] else [Message(n - 1, updates)])
  }

  function Acted(file: File, s: State, r: nat): State
    requires InPhase(file, s, r, Acting)
  {
    var x := s.replicas[r];
    var a := file[x.at];
    var next := x.(phase := Unlocking);
    var t := if a.kind.Broadcast?
             then With(s, r, next.(updates := [])).(net := s.net + Sends(r, x.updates, |s.replicas|))
             else With(s, r, next.(value := x.value + Delta(a.kind), updates := x.updates + [a.kind]));
    t.(log := s.log + [a])
  }

  function After(file: File, s: State, step: Step): State
    requires Enabled(file, s, step)
  {
    match step
    case Get(r) =>
      var x := s.replicas[r];
      if s.turn == file[x.at].time then With(s, r, x.(phase := Locking, seen := s.turn)) else s
    case SetNx(r) =>
      var x := s.replicas[r];
      if s.locked then With(s, r, x.(phase := Polling, at := NextOwn(file, x.at + 1, r)))
      else With(s, r, x.(phase := Acting)).(locked := true)
    case Act(r) => Acted(file, s, r)
    case Del(r) => With(s, r, s.replicas[r].(phase := Advancing)).(locked := false)
    case Set(r) =>
      var x := s.replicas[r];
      With(s, r, x.(phase := Polling, at := NextOwn(file, x.at + 1, r))).(turn := x.seen + 1)
    case Expire => s.(locked := false)
    case Deliver(k) =>
      var m := s.net[k];
      var x := s.replicas[m.to];
      With(s, m.to, x.(value := x.value + Net(m.updates))).(net := s.net[..k] + s.net[k + 1..])
  }

  predicate Init(file: File, s: State) {
    && s.turn == 1 && !s.locked && s.net == [] && s.log == []
    && forall r :: 0 <= r < |s.replicas| ==> s.replicas[r] == Replica(NextOwn(file, 0, r), Polling, 0, 0, [])
  }

  // ---------- turns ----------

  predicate Busy(x: Replica) {
    !x.phase.Polling?
  }

  predicate HoldsLock(x: Replica) {
    x.phase.Acting? || x.phase.Unlocking?
  }

  predicate HasActed(x: Replica) {
    x.phase.Unlocking? || x.phase.Advancing?
  }

  /** Every replica is at its first action that is due now or later; one that left polling is at its turn. */
  predicate ReplicaInTurn(file: File, s: State, r: nat)
    requires r < |s.replicas| && 1 <= s.turn <= |file| + 1
  {
    var x := s.replicas[r];
    && x.at == NextOwn(file, s.turn - 1, r)
    && (Busy(x) ==> s.turn - 1 < |file| && x.at == s.turn - 1 && x.seen == s.turn)
  }

  /** There is an action due, and a replica to do it. */
  predicate HasOwner(file: File, s: State) {
    1 <= s.turn <= |file| && file[s.turn - 1].id < |s.replicas|
  }

  function Owner(file: File, s: State): Replica
    requires HasOwner(file, s)
  {
    s.replicas[file[s.turn - 1].id]
  }

  predicate Turns(file: File, s: State) {
    && 1 <= s.turn <= |file| + 1
    && (forall r :: 0 <= r < |s.replicas| ==> ReplicaInTurn(file, s, r))
    && (s.locked ==> HasOwner(file, s) && HoldsLock(Owner(file, s)))
    && s.log == file[..Done(file, s)]
  }

  /** How many actions have been done: the one due counts once its replica has acted. */
  function Done(file: File, s: State): (n: nat)
    requires 1 <= s.turn <= |file| + 1
    ensures n <= |file|
  {
    if HasOwner(file, s) && HasActed(Owner(file, s)) then s.turn else s.turn - 1
  }

  /** Whoever is past polling is on turn; so no two replicas are, and the lock is free when it is asked for. */
  lemma BusyIsOwner(file: File, s: State, r: nat)
    requires Turns(file, s) && r < |s.replicas| && Busy(s.replicas[r])
    ensures HasOwner(file, s) && file[s.turn - 1].id == r
    ensures s.replicas[r].phase.Locking? ==> !s.locked
    ensures s.replicas[r].at == s.turn - 1 && s.replicas[r].seen == s.turn
  {
    assert ReplicaInTurn(file, s, r);
  }

  /** One at a time: while a replica is past polling, all others poll. */
  lemma OthersPoll(file: File, s: State, r: nat, q: nat)
    requires Turns(file, s) && r < |s.replicas| && q < |s.replicas| && r != q && Busy(s.replicas[r])
    ensures !Busy(s.replicas[q])
  {
    BusyIsOwner(file, s, r);
    assert ReplicaInTurn(file, s, q);
  }

  /** Within a turn a step moves one replica and leaves the others where they are. */
  lemma OthersInTurn(file: File, s: State, s': State, r: nat)
    requires Turns(file, s) && s'.turn == s.turn && r < |s.replicas| == |s'.replicas|
    requires forall q :: 0 <= q < |s.replicas| && q != r ==> s'.replicas[q] == s.replicas[q]
    requires ReplicaInTurn(file, s', r)
    ensures forall q :: 0 <= q < |s'.replicas| ==> ReplicaInTurn(file, s', q)
  {
    forall q | 0 <= q < |s'.replicas|
      ensures ReplicaInTurn(file, s', q)
    {
      if q != r {
        assert ReplicaInTurn(file, s, q);
      }
    }
  }

  lemma ActKeepsTurns(file: File, s: State, r: nat)
    requires Numbered(file) && Turns(file, s) && Enabled(file, s, Act(r))
    ensures Turns(file, After(file, s, Act(r)))
  {
    hide Sends;
    BusyIsOwner(file, s, r);
    var s' := After(file, s, Act(r));
    OthersInTurn(file, s, s', r);
    assert file[..s.turn] == file[..s.turn - 1] + [file[s.turn - 1]];
  }

  lemma SetKeepsTurns(file: File, s: State, r: nat)
    requires Numbered(file) && Turns(file, s) && Enabled(file, s, Step.Set(r))
    ensures Turns(file, After(file, s, Step.Set(r)))
  {
    BusyIsOwner(file, s, r);
    var s' := After(file, s, Step.Set(r));
    assert s'.turn == s.turn + 1 && !s.locked;
    assert ReplicaInTurn(file, s, r);
    forall q | 0 <= q < |s'.replicas|
      ensures ReplicaInTurn(file, s', q) && !Busy(s'.replicas[q])
    {
      if q != r {
        assert ReplicaInTurn(file, s, q);
        assert NextOwn(file, s.turn - 1, q) == NextOwn(file, s.turn, q);
        OthersPoll(file, s, r, q);
      }
    }
    assert forall q :: 0 <= q < |s'.replicas| ==> !Busy(s'.replicas[q]);
    assert Done(file, s) == s.turn;
    assert Done(file, s') == s.turn;
  }

  lemma GetKeepsTurns(file: File, s: State, r: nat)
    requires Numbered(file) && Turns(file, s) && Enabled(file, s, Get(r))
    ensures Turns(file, After(file, s, Get(r)))
  {
    assert ReplicaInTurn(file, s, r);
    OthersInTurn(file, s, After(file, s, Get(r)), r);
  }

  lemma SetNxKeepsTurns(file: File, s: State, r: nat)
    requires Numbered(file) && Turns(file, s) && Enabled(file, s, SetNx(r))
    ensures Turns(file, After(file, s, SetNx(r)))
  {
    BusyIsOwner(file, s, r);
    assert ReplicaInTurn(file, s, r);
    OthersInTurn(file, s, After(file, s, SetNx(r)), r);
  }

  lemma DelKeepsTurns(file: File, s: State, r: nat)
    requires Numbered(file) && Turns(file, s) && Enabled(file, s, Del(r))
    ensures Turns(file, After(file, s, Del(r)))
  {
    BusyIsOwner(file, s, r);
    assert ReplicaInTurn(file, s, r);
    OthersInTurn(file, s, After(file, s, Del(r)), r);
  }

  lemma DeliverKeepsTurns(file: File, s: State, k: nat)
    requires Numbered(file) && Turns(file, s) && Enabled(file, s, Deliver(k))
    ensures Turns(file, After(file, s, Deliver(k)))
  {
    hide Net;
    var r := s.net[k].to;
    assert ReplicaInTurn(file, s, r);
    OthersInTurn(file, s, After(file, s, Deliver(k)), r);
  }

  lemma TurnsKeep(file: File, s: State, step: Step)
    requires Numbered(file) && Turns(file, s) && Enabled(file, s, step)
    ensures Turns(file, After(file, s, step))
  {
    hide Sends, Net;
    match step
    case Get(r) => GetKeepsTurns(file, s, r);
    case SetNx(r) => SetNxKeepsTurns(file, s, r);
    case Act(r) => ActKeepsTurns(file, s, r);
    case Del(r) => DelKeepsTurns(file, s, r);
    case Set(r) => SetKeepsTurns(file, s, r);
    case Expire => assert forall q :: 0 <= q < |s.replicas| && ReplicaInTurn(file, s, q) ==> ReplicaInTurn(file, After(file, s, step), q);
    case Deliver(k) => DeliverKeepsTurns(file, s, k);
  }

  // ---------- values ----------

  /** A replica's own net count in a history. */
  function Own(log: seq<Action>, r: nat): int {
    if log == [] then 0
    else
      var a := log[|log| - 1];
      Own(log[..|log| - 1], r) + if a.id == r then Delta(a.kind) else 0
  }

  predicate PublishedLater(log: seq<Action>, j: nat)
    requires j < |log|
  {
    exists k :: j < k < |log| && log[k].id == log[j].id && log[k].kind == Broadcast
  }

  /** The net count of the first `m` actions that are not `r`'s and that their replica broadcast afterwards. */
  function PublishedIn(log: seq<Action>, m: nat, r: nat): int
    requires m <= |log|
  {
    if m == 0 then 0
    else PublishedIn(log, m - 1, r) +
         if log[m - 1].id != r && PublishedLater(log, m - 1) then Delta(log[m - 1].kind) else 0
  }

  function Published(log: seq<Action>, r: nat): int {
    PublishedIn(log, |log|, r)
  }

  /** The updates of `r` since its last broadcast. */
  function Pending(log: seq<Action>, r: nat): seq<Kind> {
    if log == [] then []
    else
      var a := log[|log| - 1];
      var before := Pending(log[..|log| - 1], r);
      if a.id != r then before
      else if a.kind == Broadcast then []
      else before + [a.kind]
  }

  /** The net count of those of the first `m` actions that are `r`'s and that it has not broadcast. */
  function UnpublishedIn(log: seq<Action>, m: nat, r: nat): int
    requires m <= |log|
  {
    if m == 0 then 0
    else UnpublishedIn(log, m - 1, r) +
         if log[m - 1].id == r && !PublishedLater(log, m - 1) then Delta(log[m - 1].kind) else 0
  }

  lemma LaterSnoc(log: seq<Action>, a: Action, j: nat)
    requires j < |log|
    ensures PublishedLater(log + [a], j) <==> PublishedLater(log, j) || (a.id == log[j].id && a.kind == Broadcast)
  {
    var longer := log + [a];
    if a.id == log[j].id && a.kind == Broadcast {
      assert longer[|log|] == a;
    }
    if PublishedLater(log, j) {
      var k :| j < k < |log| && log[k].id == log[j].id && log[k].kind == Broadcast;
      assert longer[k] == log[k];
    }
  }

  lemma {:induction false} PublishedStep(log: seq<Action>, a: Action, m: nat, r: nat)
    requires m <= |log|
    ensures PublishedIn(log + [a], m, r) ==
            PublishedIn(log, m, r) + if a.kind == Broadcast && a.id != r then UnpublishedIn(log, m, a.id) else 0
  {
    if m > 0 {
      PublishedStep(log, a, m - 1, r);
      LaterSnoc(log, a, m - 1);
    }
  }

  lemma {:induction false} UnpublishedStep(log: seq<Action>, a: Action, m: nat, r: nat)
    requires m <= |log|
    ensures UnpublishedIn(log + [a], m, r) ==
            if a.kind == Broadcast && a.id == r then 0 else UnpublishedIn(log, m, r)
  {
    if m > 0 {
      UnpublishedStep(log, a, m - 1, r);
      LaterSnoc(log, a, m - 1);
    }
  }

  lemma {:induction false} PendingIsUnpublished(log: seq<Action>, r: nat)
    ensures Net(Pending(log, r)) == UnpublishedIn(log, |log|, r)
  {
    if log != [] {
      var n := |log| - 1;
      var before, a := log[..n], log[n];
      assert log == before + [a];
      PendingIsUnpublished(before, r);
      UnpublishedStep(before, a, n, r);
      assert !PublishedLater(log, n);
      NetSnoc(Pending(before, r), a.kind);
    }
  }

  /** A broadcast publishes, for everyone else, exactly the pending updates. */
  lemma PublishedSnoc(log: seq<Action>, a: Action, r: nat)
    ensures Published(log + [a], r) ==
            Published(log, r) + if a.kind == Broadcast && a.id != r then Net(Pending(log, a.id)) else 0
  {
    PublishedStep(log, a, |log|, r);
    PendingIsUnpublished(log, a.id);
    assert !PublishedLater(log + [a], |log|);
  }

  lemma HistorySnoc(log: seq<Action>, a: Action, r: nat)
    ensures Own(log + [a], r) == Own(log, r) + if a.id == r then Delta(a.kind) else 0
    ensures Pending(log + [a], r) ==
            if a.id != r then Pending(log, r) else if a.kind == Broadcast then [] else Pending(log, r) + [a.kind]
  {
    assert (log + [a])[..|log|] == log;
  }

  /** What the messages under way will add to replica `r`. */
  function InFlight(net: seq<Message>, r: nat): int {
    if net == [] then 0
    else
      var m := net[|net| - 1];
      InFlight(net[..|net| - 1], r) + if m.to == r then Net(m.updates) else 0
  }

  lemma {:induction false} InFlightConcat(a: seq<Message>, b: seq<Message>, r: nat)
    ensures InFlight(a + b, r) == InFlight(a, r) + InFlight(b, r)
  {
    if b == [] {
      assert a + b == a;
    } else {
      var n := |b| - 1;
      assert (a + b)[..|a + b| - 1] == a + b[..n];
      InFlightConcat(a, b[..n], r);
    }
  }

  lemma NoneInFlight(r: nat)
    ensures InFlight([], r) == 0
  {
  }

  lemma InFlightOne(m: Message, r: nat)
    ensures InFlight([m], r) == if m.to == r then Net(m.updates) else 0
  {
    assert [m][..0] == [];
  }

  lemma InFlightRemoved(net: seq<Message>, k: nat, r: nat)
    requires k < |net|
    ensures InFlight(net, r) ==
            InFlight(net[..k] + net[k + 1..], r) + if net[k].to == r then Net(net[k].updates) else 0
  {
    hide InFlight;
    var a, b := net[..k], net[k + 1..];
    assert net == a + [net[k]] + b;
    InFlightConcat(a + [net[k]], b, r);
    InFlightConcat(a, [net[k]], r);
    InFlightConcat(a, b, r);
    InFlightOne(net[k], r);
  }

  lemma {:induction false} InFlightSends(from: nat, updates: seq<Kind>, n: nat, r: nat)
    ensures InFlight(Sends(from, updates, n), r) == if r < n && r != from then Net(updates) else 0
  {
    if n > 0 {
      hide InFlight;
      InFlightSends(from, updates, n - 1, r);
      var last := if n - 1 == from then [] else [Message(n - 1, updates)];
      InFlightConcat(Sends(from, updates, n - 1), last, r);
      InFlightOne(Message(n - 1, updates), r);
      NoneInFlight(r);
    }
  }

  /** With what is still under way, a replica has its own count and what the others have broadcast. */
  predicate ValueOk(s: State, r: nat)
    requires r < |s.replicas|
  {
    && s.replicas[r].updates == Pending(s.log, r)
    && s.replicas[r].value + InFlight(s.net, r) == Own(s.log, r) + Published(s.log, r)
  }

  predicate Values(s: State) {
    forall r :: 0 <= r < |s.replicas| ==> ValueOk(s, r)
  }

  lemma ActKeepsValue(file: File, s: State, r: nat, q: nat)
    requires Values(s) && Enabled(file, s, Act(r)) && file[s.replicas[r].at].id == r && q < |s.replicas|
    ensures ValueOk(After(file, s, Act(r)), q)
  {
    var x := s.replicas[r];
    var a := file[x.at];
    assert ValueOk(s, r) && ValueOk(s, q);
    hide Own, Published, Pending, InFlight, Sends, Net, NextOwn;
    HistorySnoc(s.log, a, q);
    PublishedSnoc(s.log, a, q);
    if a.kind == Broadcast {
      InFlightConcat(s.net, Sends(r, x.updates, |s.replicas|), q);
      InFlightSends(r, x.updates, |s.replicas|, q);
    }
  }

  lemma ValuesKeep(file: File, s: State, step: Step)
    requires Numbered(file) && Turns(file, s) && Values(s) && Enabled(file, s, step)
    ensures Values(After(file, s, step))
  {
    hide Own, Published, Pending, InFlight, Sends, Net;
    var s' := After(file, s, step);
    forall q | 0 <= q < |s'.replicas|
      ensures ValueOk(s', q)
    {
      assert ValueOk(s, q);
      match step
      case Act(r) =>
        BusyIsOwner(file, s, r);
        ActKeepsValue(file, s, r, q);
      case Deliver(k) => InFlightRemoved(s.net, k, q);
      case _ =>
    }
  }

  // ---------- progress ----------

  /** A step that is not a poll in vain and not the expiry of the lock. */
  predicate Useful(file: File, s: State, step: Step) {
    && Enabled(file, s, step) && !step.Expire?
    && (step.Get? ==> s.turn == file[s.replicas[step.r].at].time)
  }

  function Progress(p: Phase, n: nat): nat {
    match p
    case Polling => 0
    case Locking => 1
    case Acting => 2
    case Unlocking => 3 + n
    case Advancing => 4 + n
  }

  /** An upper bound on the useful steps left. */
  function Work(file: File, s: State): nat
    requires 1 <= s.turn <= |file| + 1
  {
    var n := |s.replicas|;
    if s.turn == |file| + 1 then |s.net|
    else WorkOf(|file| - s.turn, n) + (if HasOwner(file, s) then 5 + n - Progress(Owner(file, s).phase, n) else 5 + n) + |s.net|
  }

  function WorkOf(turns: nat, n: nat): nat {
    if turns == 0 then 0 else WorkOf(turns - 1, n) + 5 + n
  }

  predicate Addressed(s: State) {
    forall k :: 0 <= k < |s.net| ==> s.net[k].to < |s.replicas|
  }

  ghost predicate Inv(file: File, s: State) {
    Turns(file, s) && Values(s) && Addressed(s)
  }

  lemma {:induction false} SendsFit(from: nat, updates: seq<Kind>, n: nat)
    ensures |Sends(from, updates, n)| <= n
    ensures forall k :: 0 <= k < |Sends(from, updates, n)| ==> Sends(from, updates, n)[k].to < n
  {
    if n > 0 {
      SendsFit(from, updates, n - 1);
    }
  }

  lemma StepKeeps(file: File, s: State, step: Step)
    requires Numbered(file) && Inv(file, s) && Enabled(file, s, step)
    ensures Inv(file, After(file, s, step)) && |After(file, s, step).replicas| == |s.replicas|
  {
    hide Turns, Values, Net;
    TurnsKeep(file, s, step);
    ValuesKeep(file, s, step);
    if step.Act? {
      SendsFit(step.r, s.replicas[step.r].updates, |s.replicas|);
    }
  }

  lemma SetShrinks(file: File, s: State, r: nat)
    requires Numbered(file) && Inv(file, s) && Enabled(file, s, Step.Set(r))
    ensures 1 <= After(file, s, Step.Set(r)).turn <= |file| + 1
    ensures Work(file, After(file, s, Step.Set(r))) < Work(file, s)
  {
    hide Values;
    BusyIsOwner(file, s, r);
    var s' := After(file, s, Step.Set(r));
    assert s'.turn == s.turn + 1;
    if HasOwner(file, s') {
      var q := file[s'.turn - 1].id;
      if q != r {
        OthersPoll(file, s, r, q);
      }
      assert Owner(file, s').phase == Polling;
    }
  }

  lemma WorkShrinks(file: File, s: State, step: Step)
    requires Numbered(file) && Inv(file, s) && Enabled(file, s, step)
    ensures 1 <= After(file, s, step).turn <= |file| + 1
    ensures Work(file, After(file, s, step)) + (if Useful(file, s, step) then 1 else 0) <= Work(file, s)
  {
    hide Values, WorkOf, Net, NextOwn;
    match step
    case Get(r) =>
      assert ReplicaInTurn(file, s, r);
    case SetNx(r) => BusyIsOwner(file, s, r);
    case Act(r) =>
      BusyIsOwner(file, s, r);
      SendsFit(r, s.replicas[r].updates, |s.replicas|);
    case Del(r) => BusyIsOwner(file, s, r);
    case Set(r) => SetShrinks(file, s, r);
    case Expire =>
    case Deliver(k) =>
  }

  ghost predicate Stuck(file: File, s: State) {
    forall step :: !Useful(file, s, step)
  }

  predicate AllOwned(file: File, n: nat) {
    forall k :: 0 <= k < |file| ==> file[k].id < n
  }

  /** No deadlock: until all is done and merged, some step gets the replay on. */
  lemma NoDeadlock(file: File, s: State) returns (step: Step)
    requires Numbered(file) && Inv(file, s) && AllOwned(file, |s.replicas|)
    requires s.turn <= |file| || s.net != []
    ensures Useful(file, s, step)
  {
    if s.turn <= |file| {
      var r := file[s.turn - 1].id;
      assert ReplicaInTurn(file, s, r);
      match s.replicas[r].phase
      case Polling => step := Get(r);
      case Locking => step := SetNx(r);
      case Acting => step := Act(r);
      case Unlocking => step := Del(r);
      case Advancing => step := Step.Set(r);
    } else {
      step := Deliver(0);
    }
  }

  // ---------- runs ----------

  ghost predicate Runs(file: File, s: State, steps: seq<Step>)
    decreases |steps|
  {
    steps == [] || (Enabled(file, s, steps[0]) && Runs(file, After(file, s, steps[0]), steps[1..]))
  }

  ghost function Final(file: File, s: State, steps: seq<Step>): State
    requires Runs(file, s, steps)
    decreases |steps|
  {
    if steps == [] then s else Final(file, After(file, s, steps[0]), steps[1..])
  }

  ghost function UsefulSteps(file: File, s: State, steps: seq<Step>): nat
    requires Runs(file, s, steps)
    decreases |steps|
  {
    if steps == [] then 0
    else (if Useful(file, s, steps[0]) then 1 else 0) + UsefulSteps(file, After(file, s, steps[0]), steps[1..])
  }

  lemma InitInv(file: File, s: State)
    requires Init(file, s)
    ensures Inv(file, s)
  {
    assert file[..0] == [];
    forall r | 0 <= r < |s.replicas|
      ensures ReplicaInTurn(file, s, r) && ValueOk(s, r)
    {
    }
  }

  lemma {:induction false} RunKeeps(file: File, s: State, steps: seq<Step>)
    requires Numbered(file) && Inv(file, s) && Runs(file, s, steps)
    ensures Inv(file, Final(file, s, steps)) && |Final(file, s, steps).replicas| == |s.replicas|
    ensures UsefulSteps(file, s, steps) + Work(file, Final(file, s, steps)) <= Work(file, s)
    decreases |steps|
  {
    if steps != [] {
      hide After, Enabled, Work, Turns, Values;
      StepKeeps(file, s, steps[0]);
      TurnRange(file, s);
      WorkShrinks(file, s, steps[0]);
      RunKeeps(file, After(file, s, steps[0]), steps[1..]);
    }
  }

  lemma TurnRange(file: File, s: State)
    requires Inv(file, s)
    ensures 1 <= s.turn <= |file| + 1
  {
  }

  /**
    Over every interleaving: what has been done is a prefix of the file, so each action at most once and in
    file order; no two replicas are past polling at once; the lock is never refused.
    */
  lemma ReplayIsSerial(file: File, s: State, steps: seq<Step>)
    requires Numbered(file) && Init(file, s) && Runs(file, s, steps)
    ensures var e := Final(file, s, steps);
            && e.log <= file
            && (forall r, q :: 0 <= r < q < |e.replicas| ==> !(Busy(e.replicas[r]) && Busy(e.replicas[q])))
            && (forall r :: 0 <= r < |e.replicas| && e.replicas[r].phase.Locking? ==> !e.locked)
  {
    InitInv(file, s);
    RunKeeps(file, s, steps);
    var e := Final(file, s, steps);
    forall r, q | 0 <= r < q < |e.replicas|
      ensures !(Busy(e.replicas[r]) && Busy(e.replicas[q]))
    {
      if Busy(e.replicas[r]) {
        OthersPoll(file, e, r, q);
      }
    }
    forall r | 0 <= r < |e.replicas| && e.replicas[r].phase.Locking?
      ensures !e.locked
    {
      BusyIsOwner(file, e, r);
    }
  }

  /** A run that cannot go on has done the whole file, and every replica has the value the file determines. */
  lemma ReplayIsDeterministic(file: File, s: State, steps: seq<Step>)
    requires Numbered(file) && Init(file, s) && AllOwned(file, |s.replicas|) && Runs(file, s, steps)
    requires Stuck(file, Final(file, s, steps))
    ensures var e := Final(file, s, steps);
            && e.log == file && |e.replicas| == |s.replicas|
            && forall r :: 0 <= r < |e.replicas| ==> e.replicas[r].value == Own(file, r) + Published(file, r)
  {
    InitInv(file, s);
    RunKeeps(file, s, steps);
    var e := Final(file, s, steps);
    if e.turn <= |file| || e.net != [] {
      var step := NoDeadlock(file, e);
    }
    assert file[..|file|] == file;
    forall r | 0 <= r < |e.replicas|
      ensures e.replicas[r].value == Own(file, r) + Published(file, r)
    {
      assert ValueOk(e, r);
      NoneInFlight(r);
    }
  }

  /** Whatever the schedule, the steps that are not polls in vain are bounded. */
  lemma ReplayIsBounded(file: File, s: State, steps: seq<Step>)
    requires Numbered(file) && Init(file, s) && Runs(file, s, steps)
    ensures UsefulSteps(file, s, steps) <= |file| * (5 + |s.replicas|)
  {
    InitInv(file, s);
    FirstWork(file, s);
    hide Work, WorkOf, Init, Inv;
    RunKeeps(file, s, steps);
    WorkOfIs(|file|, |s.replicas|);
  }

  lemma FirstWork(file: File, s: State)
    requires Init(file, s)
    ensures Work(file, s) == WorkOf(|file|, |s.replicas|)
  {
  }

  lemma {:induction false} WorkOfIs(turns: nat, n: nat)
    ensures WorkOf(turns, n) == turns * (5 + n)
  {
    if turns > 0 {
      WorkOfIs(turns - 1, n);
      assert turns * (5 + n) == (turns - 1) * (5 + n) + (5 + n);
    }
  }

  lemma RunsCons(file: File, s: State, step: Step, rest: seq<Step>)
    requires Enabled(file, s, step) && Runs(file, After(file, s, step), rest)
    ensures Runs(file, s, [step] + rest) && Final(file, s, [step] + rest) == Final(file, After(file, s, step), rest)
  {
    hide After, Enabled;
    assert ([step] + rest)[1..] == rest;
  }

  lemma {:induction false} SomeRunEnds(file: File, s: State) returns (steps: seq<Step>)
    requires Numbered(file) && Inv(file, s) && 1 <= s.turn <= |file| + 1
    ensures Runs(file, s, steps) && Stuck(file, Final(file, s, steps))
    decreases Work(file, s)
  {
    if Stuck(file, s) {
      steps := [];
    } else {
      var step :| Useful(file, s, step);
      hide After, Enabled, Work, Turns, Values;
      StepKeeps(file, s, step);
      WorkShrinks(file, s, step);
      var rest := SomeRunEnds(file, After(file, s, step));
      RunsCons(file, s, step, rest);
      steps := [step] + rest;
    }
  }

  /** An action of nobody's is never done, and nothing after it is. */
  lemma {:induction false} UnownedBlocks(file: File, s: State, steps: seq<Step>, k: nat)
    requires Numbered(file) && Inv(file, s) && Runs(file, s, steps)
    requires k < |file| && file[k].id >= |s.replicas| && s.turn <= k + 1
    ensures Final(file, s, steps).turn <= k + 1
    decreases |steps|
  {
    if steps != [] {
      StepKeeps(file, s, steps[0]);
      if steps[0].Set? {
        BusyIsOwner(file, s, steps[0].r);
      }
      UnownedBlocks(file, After(file, s, steps[0]), steps[1..], k);
    }
  }

  /** The replay can finish the file exactly when every action belongs to a replica. */
  lemma FinishesIffOwned(file: File, s: State)
    requires Numbered(file) && Init(file, s)
    ensures (exists steps :: Runs(file, s, steps) && Final(file, s, steps).log == file) <==> AllOwned(file, |s.replicas|)
  {
    InitInv(file, s);
    assert s.turn == 1;
    hide Runs, Final, Stuck, Values, NextOwn, ReplicaInTurn, Net, After, Enabled, Work;
    if AllOwned(file, |s.replicas|) {
      var steps := SomeRunEnds(file, s);
      ReplayIsDeterministic(file, s, steps);
    } else {
      var k :| 0 <= k < |file| && file[k].id >= |s.replicas|;
      forall steps | Runs(file, s, steps)
        ensures Final(file, s, steps).log != file
      {
        UnownedBlocks(file, s, steps, k);
        RunKeeps(file, s, steps);
        var e := Final(file, s, steps);
        assert Done(file, e) <= k;
      }
    }
  }
}
