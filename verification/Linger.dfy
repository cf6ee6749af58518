/**
  The read that answers from the first responses and lingers for the rest: one goroutine per cluster asked,
  a shared unbuffered channel, a WaitGroup that expects one signal per cluster, and a closer that closes the
  channel when they have come. A step is one hand-over on the channel, one signal, one close, or the timer.
  */
module Linger {

  type Key = string

  /** One answer of a cluster: to which key, and whether it came without an error. */
  datatype Element = Element(cluster: nat, key: Key, ok: bool)

  /** `Excused` clusters were never asked; the reader signals for them. */
  datatype Sender = Unused | Sending(rest: seq<Element>) | Finished | Excused

  datatype Phase = Looping | Lingering | Returned

  datatype Outcome = Pending | CompleteFailure | Partial | Full

  /** `asked` are the distinct keys, `most` bounds the answers of one cluster, `armed` is the pending timer. */
  datatype State = State(
    asked: set<Key>,
    most: nat,
    senders: seq<Sender>,
    signals: nat,
    closes: nat,
    phase: Phase,
    outcome: Outcome,
    remaining: set<Key>,
    maySendAll: bool,
    armed: bool,
    scattered: multiset<Element>,
    received: multiset<Element>)

  datatype Step =
    | Receive(c: nat)
    | Signal(c: nat)
    | Close
    | SeeClosed
    | Timeout(streams: seq<seq<Element>>)

  /** A cluster answers a key without error at most once, and then gives no error for it. */
  predicate OncePerKey(stream: seq<Element>) {
    forall i, j :: 0 <= i < j < |stream| && stream[i].key == stream[j].key ==> !stream[i].ok && !stream[j].ok
  }

  predicate Answers(stream: seq<Element>, c: nat, keys: set<Key>, most: nat) {
    && |stream| <= most && OncePerKey(stream)
    && forall i :: 0 <= i < |stream| ==> stream[i].cluster == c && stream[i].key in keys
  }

  predicate AllAnswer(s: State, streams: seq<seq<Element>>) {
    && |streams| == |s.senders|
    && forall c :: 0 <= c < |streams| ==> Answers(streams[c], c, s.remaining, s.most)
  }

  predicate IsSending(s: State, c: nat) {
    c < |s.senders| && s.senders[c].Sending?
  }

  predicate Enabled(s: State, step: Step) {
    match step
    case Receive(c) => !s.phase.Returned? && s.closes == 0 && IsSending(s, c) && s.senders[c].rest != []
    case Signal(c) => IsSending(s, c) && s.senders[c].rest == []
    case Close => s.signals == |s.senders| && s.closes == 0
    case SeeClosed => !s.phase.Returned? && s.closes > 0
    case Timeout(streams) => s.phase.Looping? && s.armed && AllAnswer(s, streams)
  }

  // ---------- the steps ----------

  /** Every cluster not yet asked is asked for the keys that remain. */
  function Promoted(senders: seq<Sender>, streams: seq<seq<Element>>): (r: seq<Sender>)
    requires |streams| == |senders|
    ensures |r| == |senders|
    ensures forall c :: 0 <= c < |r| ==> r[c] == if senders[c].Unused? then Sending(streams[c]) else senders[c]
  {
    if senders == [] then []
    else
      var n := |senders| - 1;
      Promoted(senders[..n], streams[..n]) + [if senders[n].Unused? then Sending(streams[n]) else senders[n]]
  }

  function Excuse(senders: seq<Sender>): (r: seq<Sender>)
    ensures |r| == |senders|
    ensures forall c :: 0 <= c < |r| ==> r[c] == if senders[c].Unused? then Excused else senders[c]
  {
    if senders == [] then []
    else
      var n := |senders| - 1;
      Excuse(senders[..n]) + [if senders[n].Unused? then Excused else senders[n]]
  }

  function CountUnused(senders: seq<Sender>): nat {
    if senders == [] then 0
    else
      var n := |senders| - 1;
      CountUnused(senders[..n]) + if senders[n].Unused? then 1 else 0
  }

  /** What is yet to be received. */
  function Rests(senders: seq<Sender>): multiset<Element> {
    if senders == [] then multiset{}
    else
      var n := |senders| - 1;
      Rests(senders[..n]) + if senders[n].Sending? then multiset(senders[n].rest) else multiset{}
  }

  /** The answers that a promotion adds. */
  function Added(senders: seq<Sender>, streams: seq<seq<Element>>): multiset<Element>
    requires |streams| == |senders|
  {
    if senders == [] then multiset{}
    else
      var n := |senders| - 1;
      Added(senders[..n], streams[..n]) + if senders[n].Unused? then multiset(streams[n]) else multiset{}
  }

  predicate Answered(s: State, k: Key) {
    exists e :: e in s.received && e.ok && e.key == k
  }

  predicate NoResponse(s: State) {
    forall e :: e in s.received ==> !e.ok
  }

  /** What follows the loop: the result, and who gives the signals still missing. */
  function Leave(s: State): State {
    if NoResponse(s) && s.remaining != {} then s.(phase := Returned, outcome := CompleteFailure, armed := false)
    else if s.remaining != {} then s.(phase := Returned, outcome := Partial, armed := false)
    else if !s.maySendAll then
      s.(phase := Returned, outcome := Full, armed := false,
         senders := Excuse(s.senders), signals := s.signals + CountUnused(s.senders))
    else s.(phase := Lingering, outcome := Full, armed := false)
  }

  /** The first element of sender `c` passes to the reader, who leaves the loop with the last key answered. */
  function Received(s: State, c: nat): State
    requires IsSending(s, c) && s.senders[c].rest != []
  {
    var e := s.senders[c].rest[0];
    var t := s.(senders := s.senders[c := Sending(s.senders[c].rest[1..])], received := s.received + multiset{e});
    if s.phase.Lingering? || !e.ok then t
    else
      var u := t.(remaining := s.remaining - {e.key});
      if u.remaining == {} then Leave(u) else u
  }

  function TimedOut(s: State, streams: seq<seq<Element>>): State
    requires AllAnswer(s, streams)
  {
    var t := s.(senders := Promoted(s.senders, streams), scattered := s.scattered + Added(s.senders, streams),
                maySendAll := true, armed := false);
    if s.remaining == {} then Leave(t) else t
  }

  function After(s: State, step: Step): State
    requires Enabled(s, step)
  {
    match step
    case Receive(c) => Received(s, c)
    case Signal(c) => s.(senders := s.senders[c := Finished], signals := s.signals + 1)
    case Close => s.(closes := s.closes + 1)
    case SeeClosed => if s.phase.Looping? then Leave(s) else s.(phase := Returned)
    case Timeout(streams) => TimedOut(s, streams)
  }

  /** The start: all clusters asked if the permit is granted, else one of them, the timer set if it may be. */
  predicate Init(s: State, granted: bool, timed: bool, chosen: nat) {
    && chosen < |s.senders|
    && s.signals == 0 && s.closes == 0 && s.phase.Looping? && s.outcome.Pending?
    && s.remaining == s.asked && s.maySendAll == granted && s.armed == (!granted && timed)
    && s.received == multiset{} && s.scattered == Rests(s.senders)
    && forall c :: 0 <= c < |s.senders| ==>
                     if granted || c == chosen
                     then s.senders[c].Sending? && Answers(s.senders[c].rest, c, s.asked, s.most)
                     else s.senders[c].Unused?
  }

  // ---------- sums over the senders ----------

  function CountDone(senders: seq<Sender>): nat {
    if senders == [] then 0
    else
      var n := |senders| - 1;
      CountDone(senders[..n]) + if senders[n].Finished? || senders[n].Excused? then 1 else 0
  }

  function Load(x: Sender, most: nat): nat {
    match x
    case Unused => most + 2
    case Sending(rest) => |rest| + 1
    case Finished => 0
    case Excused => 0
  }

  function Loads(senders: seq<Sender>, most: nat): nat {
    if senders == [] then 0
    else
      var n := |senders| - 1;
      Loads(senders[..n], most) + Load(senders[n], most)
  }

  function OneRest(x: Sender): multiset<Element> {
    if x.Sending? then multiset(x.rest) else multiset{}
  }

  lemma {:induction false} Update(senders: seq<Sender>, c: nat, x: Sender, most: nat)
    requires c < |senders|
    ensures CountDone(senders[c := x]) + (if senders[c].Finished? || senders[c].Excused? then 1 else 0) ==
            CountDone(senders) + if x.Finished? || x.Excused? then 1 else 0
    ensures Loads(senders[c := x], most) + Load(senders[c], most) == Loads(senders, most) + Load(x, most)
  {
    var n := |senders| - 1;
    if c < n {
      assert senders[c := x][..n] == senders[..n][c := x];
      Update(senders[..n], c, x, most);
    } else {
      assert senders[c := x][..n] == senders[..n];
    }
  }

  lemma {:induction false} UpdateRests(senders: seq<Sender>, c: nat, x: Sender)
    requires c < |senders|
    ensures Rests(senders[c := x]) + OneRest(senders[c]) == Rests(senders) + OneRest(x)
  {
    var n := |senders| - 1;
    var last := OneRest(senders[n]);
    assert Rests(senders) == Rests(senders[..n]) + last;
    if c < n {
      assert senders[c := x][..n] == senders[..n][c := x];
      UpdateRests(senders[..n], c, x);
      Swap(Rests(senders[..n][c := x]), last, OneRest(senders[c]));
      Swap(Rests(senders[..n]), last, OneRest(x));
    } else {
      assert senders[c := x][..n] == senders[..n];
      Swap(Rests(senders[..n]), OneRest(x), last);
    }
  }

  lemma Swap(a: multiset<Element>, b: multiset<Element>, c: multiset<Element>)
    ensures a + b + c == a + c + b
  {
  }

  /** One element leaves what is under way. */
  lemma TakeOne(a: multiset<Element>, b: multiset<Element>, rest: seq<Element>)
    requires rest != [] && a + multiset(rest) == b + multiset(rest[1..])
    ensures b == a + multiset{rest[0]}
  {
    assert rest == [rest[0]] + rest[1..];
    assert multiset(rest) == multiset{rest[0]} + multiset(rest[1..]);
    forall e
      ensures b[e] == (a + multiset{rest[0]})[e]
    {
      assert (a + multiset(rest))[e] == (b + multiset(rest[1..]))[e];
    }
  }

  lemma {:induction false} PromotedSums(senders: seq<Sender>, streams: seq<seq<Element>>, most: nat)
    requires |streams| == |senders|
    requires forall c :: 0 <= c < |streams| ==> |streams[c]| <= most
    ensures CountDone(Promoted(senders, streams)) == CountDone(senders)
    ensures Loads(Promoted(senders, streams), most) <= Loads(senders, most)
    ensures Rests(Promoted(senders, streams)) == Rests(senders) + Added(senders, streams)
  {
    if senders != [] {
      var n := |senders| - 1;
      PromotedSums(senders[..n], streams[..n], most);
      assert Promoted(senders, streams)[..n] == Promoted(senders[..n], streams[..n]);
    }
  }

  lemma {:induction false} ExcuseSums(senders: seq<Sender>, most: nat)
    ensures CountDone(Excuse(senders)) == CountDone(senders) + CountUnused(senders)
    ensures Loads(Excuse(senders), most) <= Loads(senders, most)
    ensures Rests(Excuse(senders)) == Rests(senders)
  {
    if senders != [] {
      var n := |senders| - 1;
      ExcuseSums(senders[..n], most);
      assert Excuse(senders)[..n] == Excuse(senders[..n]);
    }
  }

  lemma {:induction false} DoneBound(senders: seq<Sender>)
    ensures CountDone(senders) <= |senders|
    ensures CountDone(senders) == |senders| <==>
            forall c :: 0 <= c < |senders| ==> senders[c].Finished? || senders[c].Excused?
  {
    if senders != [] {
      var n := |senders| - 1;
      DoneBound(senders[..n]);
      if CountDone(senders) == |senders| {
        assert CountDone(senders[..n]) == n;
        forall c | 0 <= c < |senders|
          ensures senders[c].Finished? || senders[c].Excused?
        {
          if c < n {
            assert senders[..n][c] == senders[c];
          }
        }
      }
      assert forall c :: 0 <= c < n ==> senders[..n][c] == senders[c];
    }
  }

  // ---------- the invariant ----------

  predicate AllAsked(s: State) {
    forall c :: 0 <= c < |s.senders| ==> s.senders[c].Sending? || s.senders[c].Finished?
  }

  /** Before a promotion one cluster was asked, and every answer still to come is to a key that remains. */
  predicate OneAsked(s: State) {
    && (exists c :: 0 <= c < |s.senders| && !s.senders[c].Unused?)
    && (forall c, d :: 0 <= c < d < |s.senders| ==> s.senders[c].Unused? || s.senders[d].Unused?)
    && (forall c :: 0 <= c < |s.senders| ==> !s.senders[c].Excused? && RestRemains(s, c))
  }

  predicate RestRemains(s: State, c: nat)
    requires c < |s.senders|
  {
    s.senders[c].Sending? ==>
      var rest := s.senders[c].rest;
      OncePerKey(rest) && forall i :: 0 <= i < |rest| ==> rest[i].key in s.remaining
  }

  /** Nothing more will be handed over and nobody is left unasked. */
  predicate Drained(s: State) {
    forall c :: 0 <= c < |s.senders| ==> !s.senders[c].Unused? && (s.senders[c].Sending? ==> s.senders[c].rest == [])
  }

  predicate PhaseOk(s: State) {
    match s.phase
    case Looping => s.outcome.Pending? && if s.maySendAll then !s.armed && AllAsked(s) else OneAsked(s)
    case Lingering => s.outcome.Full? && !s.armed && s.remaining == {} && AllAsked(s)
    case Returned =>
      && !s.armed && Drained(s)
      && match s.outcome
         case Pending => false
         case CompleteFailure => s.closes == 1 && s.remaining != {} && NoResponse(s)
         case Partial => s.closes == 1 && s.remaining != {} && !NoResponse(s)
         case Full => s.remaining == {}
  }

  /** One signal per cluster, one close after the last of them, and no element lost or handed over twice. */
  predicate Counted(s: State) {
    && |s.senders| > 0
    && s.signals == CountDone(s.senders)
    && s.closes <= 1 && (s.closes == 1 ==> s.signals == |s.senders|)
    && s.scattered == s.received + Rests(s.senders)
  }

  ghost predicate RemainingOk(s: State) {
    forall k :: k in s.remaining <==> k in s.asked && !Answered(s, k)
  }

  ghost predicate Inv(s: State) {
    Counted(s) && RemainingOk(s) && PhaseOk(s)
  }

  lemma ClosedIsDone(s: State)
    requires Counted(s) && s.closes == 1
    ensures Drained(s) && forall c :: 0 <= c < |s.senders| ==> s.senders[c].Finished? || s.senders[c].Excused?
  {
    DoneBound(s.senders);
  }

  lemma NothingRemains(s: State, c: nat)
    requires c < |s.senders| && RestRemains(s, c) && s.remaining == {} && s.senders[c].Sending?
    ensures s.senders[c].rest == []
  {
    var rest := s.senders[c].rest;
    var k := if rest == [] then "" else rest[0].key;
    assert rest != [] ==> k in s.remaining;
  }

  /** One cluster answered every key: it has sent all it had, and the others are excused. */
  lemma LeaveOneKeeps(s: State)
    requires Counted(s) && RemainingOk(s) && s.phase.Looping? && s.outcome.Pending?
    requires !s.maySendAll && OneAsked(s) && s.remaining == {}
    ensures Inv(Leave(s))
  {
    hide Rests, CountDone, CountUnused;
    ExcuseSums(s.senders, s.most);
    if s.closes == 1 {
      ClosedIsDone(s);
      DoneBound(Excuse(s.senders));
    }
    forall c | 0 <= c < |s.senders| && s.senders[c].Sending?
      ensures s.senders[c].rest == []
    {
      NothingRemains(s, c);
    }
    SameAnswers(s, Leave(s));
  }

  lemma SameAnswers(s: State, t: State)
    requires t.received == s.received
    ensures forall k :: Answered(t, k) <==> Answered(s, k)
  {
  }

  lemma LeaveKeeps(s: State)
    requires Counted(s) && RemainingOk(s) && s.phase.Looping? && s.outcome.Pending?
    requires if s.maySendAll then AllAsked(s) else OneAsked(s)
    requires s.remaining == {} || s.closes == 1
    ensures Inv(Leave(s))
  {
    if s.remaining == {} && !s.maySendAll {
      LeaveOneKeeps(s);
    } else {
      hide Rests, CountDone;
      if s.closes == 1 {
        ClosedIsDone(s);
      }
      SameAnswers(s, Leave(s));
    }
  }

  lemma InitInv(s: State, granted: bool, timed: bool, chosen: nat)
    requires Init(s, granted, timed, chosen)
    ensures Inv(s)
  {
    NoneDone(s.senders);
    assert s.senders[chosen].Sending?;
    forall c | 0 <= c < |s.senders| && !granted
      ensures RestRemains(s, c)
    {
    }
  }

  lemma {:induction false} NoneDone(senders: seq<Sender>)
    requires forall c :: 0 <= c < |senders| ==> senders[c].Sending? || senders[c].Unused?
    ensures CountDone(senders) == 0
  {
    if senders != [] {
      NoneDone(senders[..|senders| - 1]);
    }
  }

  /** A hand-over moves one element from what is under way to what is received. */
  lemma ReceiveCounts(s: State, c: nat)
    requires Inv(s) && Enabled(s, Receive(c))
    ensures var e := s.senders[c].rest[0];
            var t := s.(senders := s.senders[c := Sending(s.senders[c].rest[1..])], received := s.received + multiset{e});
            Counted(t) && forall k :: Answered(t, k) <==> Answered(s, k) || (e.ok && e.key == k)
  {
    hide Rests, CountDone;
    var rest := s.senders[c].rest;
    Update(s.senders, c, Sending(rest[1..]), s.most);
    UpdateRests(s.senders, c, Sending(rest[1..]));
    TakeOne(Rests(s.senders[c := Sending(rest[1..])]), Rests(s.senders), rest);
    var t := s.(senders := s.senders[c := Sending(rest[1..])], received := s.received + multiset{rest[0]});
    forall k
      ensures Answered(t, k) <==> Answered(s, k) || (rest[0].ok && rest[0].key == k)
    {
      assert rest[0] in t.received;
    }
  }

  lemma ReceiveKeeps(s: State, c: nat)
    requires Inv(s) && Enabled(s, Receive(c))
    ensures Inv(After(s, Receive(c)))
  {
    hide Counted, Answered;
    ReceiveCounts(s, c);
    var e := s.senders[c].rest[0];
    var t := s.(senders := s.senders[c := Sending(s.senders[c].rest[1..])], received := s.received + multiset{e});
    if s.phase.Looping? {
      var u := if e.ok then t.(remaining := s.remaining - {e.key}) else t;
      if !s.maySendAll {
        RestStays(s, c);
      }
      SameCounts(t, u);
      if e.ok && u.remaining == {} {
        LeaveKeeps(u);
      }
    }
  }

  lemma SameCounts(t: State, u: State)
    requires u == t.(remaining := u.remaining)
    ensures Counted(t) ==> Counted(u)
    ensures forall k :: Answered(u, k) <==> Answered(t, k)
  {
  }

  /** The key of an answer received without error has no other answer to come. */
  lemma RestStays(s: State, c: nat)
    requires OneAsked(s) && IsSending(s, c) && s.senders[c].rest != []
    ensures var e := s.senders[c].rest[0];
            var t := s.(senders := s.senders[c := Sending(s.senders[c].rest[1..])], received := s.received + multiset{e});
            OneAsked(t) && (e.ok ==> OneAsked(t.(remaining := s.remaining - {e.key})))
  {
    assert RestRemains(s, c);
    var e := s.senders[c].rest[0];
    var t := s.(senders := s.senders[c := Sending(s.senders[c].rest[1..])], received := s.received + multiset{e});
    var u := t.(remaining := s.remaining - {e.key});
    assert !t.senders[c].Unused? && !u.senders[c].Unused?;
    assert OneAsked(t);
    assert e.ok ==> RestRemains(u, c);
    assert forall d :: 0 <= d < |u.senders| && d != c ==> !u.senders[d].Sending?;
  }

  lemma SignalCounts(s: State, c: nat)
    requires Counted(s) && Enabled(s, Signal(c))
    ensures s.closes == 0 && Counted(After(s, Signal(c)))
  {
    if s.closes == 1 {
      ClosedIsDone(s);
    }
    Update(s.senders, c, Finished, s.most);
    UpdateRests(s.senders, c, Finished);
    hide Rests, CountDone;
    var before, after := Rests(s.senders), Rests(s.senders[c := Finished]);
    assert OneRest(s.senders[c]) == multiset{} && OneRest(Finished) == multiset{};
    assert after + multiset{} == after && before + multiset{} == before;
  }

  lemma SignalKeeps(s: State, c: nat)
    requires Inv(s) && Enabled(s, Signal(c))
    ensures Inv(After(s, Signal(c)))
  {
    SignalCounts(s, c);
    hide Counted;
    assert !After(s, Signal(c)).senders[c].Unused?;
    SameAnswers(s, After(s, Signal(c)));
  }

  lemma TimeoutKeeps(s: State, streams: seq<seq<Element>>)
    requires Inv(s) && Enabled(s, Timeout(streams))
    ensures Inv(After(s, Timeout(streams)))
  {
    hide Rests, CountDone;
    PromotedSums(s.senders, streams, s.most);
    var t := s.(senders := Promoted(s.senders, streams), scattered := s.scattered + Added(s.senders, streams),
                maySendAll := true, armed := false);
    SameAnswers(s, t);
    if s.remaining == {} {
      LeaveKeeps(t);
    }
  }

  lemma StepKeeps(s: State, step: Step)
    requires Inv(s) && Enabled(s, step)
    ensures Inv(After(s, step))
  {
    match step
    case Receive(c) => ReceiveKeeps(s, c);
    case Signal(c) => SignalKeeps(s, c);
    case Close => CloseKeeps(s);
    case SeeClosed => SeeClosedKeeps(s);
    case Timeout(streams) => TimeoutKeeps(s, streams);
  }

  lemma CloseKeeps(s: State)
    requires Inv(s) && Enabled(s, Close)
    ensures Inv(After(s, Close))
  {
    SameAnswers(s, After(s, Close));
  }

  lemma SeeClosedKeeps(s: State)
    requires Inv(s) && Enabled(s, SeeClosed)
    ensures Inv(After(s, SeeClosed))
  {
    if s.phase.Looping? {
      LeaveKeeps(s);
    } else {
      ClosedIsDone(s);
      SameAnswers(s, After(s, SeeClosed));
    }
  }

  // ---------- every schedule ends ----------

  /** A bound on the steps left. */
  function Work(s: State): nat {
    Loads(s.senders, s.most) + (if s.armed then 1 else 0) + (if s.closes == 0 then 1 else 0) +
    match s.phase
    case Looping => 2
    case Lingering => 1
    case Returned => 0
  }

  lemma LeaveShrinks(s: State)
    requires s.phase.Looping?
    ensures Work(Leave(s)) < Work(s)
  {
    ExcuseSums(s.senders, s.most);
  }

  lemma WorkShrinks(s: State, step: Step)
    requires Inv(s) && Enabled(s, step)
    ensures Work(After(s, step)) < Work(s)
  {
    hide Loads, Rests, CountDone, CountUnused, Answered;
    match step
    case Receive(c) =>
      var rest := s.senders[c].rest;
      Update(s.senders, c, Sending(rest[1..]), s.most);
      var t := s.(senders := s.senders[c := Sending(rest[1..])], received := s.received + multiset{rest[0]});
      var u := t.(remaining := s.remaining - {rest[0].key});
      if s.phase.Looping? {
        LeaveShrinks(u);
      }
    case Signal(c) => Update(s.senders, c, Finished, s.most);
    case Close =>
    case SeeClosed =>
      if s.phase.Looping? {
        LeaveShrinks(s);
      }
    case Timeout(streams) =>
      PromotedSums(s.senders, streams, s.most);
      LeaveShrinks(TimedOut(s, streams).(phase := Looping, outcome := Pending));
  }

  ghost predicate Runs(s: State, steps: seq<Step>)
    decreases |steps|
  {
    steps == [] || (Enabled(s, steps[0]) && Runs(After(s, steps[0]), steps[1..]))
  }

  ghost function Final(s: State, steps: seq<Step>): State
    requires Runs(s, steps)
    decreases |steps|
  {
    if steps == [] then s else Final(After(s, steps[0]), steps[1..])
  }

  ghost predicate Stuck(s: State) {
    forall step :: !Enabled(s, step)
  }

  lemma {:induction false} RunKeeps(s: State, steps: seq<Step>)
    requires Inv(s) && Runs(s, steps)
    ensures Inv(Final(s, steps)) && |steps| + Work(Final(s, steps)) <= Work(s)
    decreases |steps|
  {
    if steps != [] {
      hide Inv, After, Enabled, Work;
      StepKeeps(s, steps[0]);
      WorkShrinks(s, steps[0]);
      RunKeeps(After(s, steps[0]), steps[1..]);
    }
  }

  // ---------- where schedules end ----------

  /** The call returned, every signal came, the channel was closed once and every element was received. */
  predicate Clean(s: State) {
    && s.phase.Returned? && s.closes == 1 && s.signals == |s.senders|
    && (forall c :: 0 <= c < |s.senders| ==> s.senders[c].Finished? || s.senders[c].Excused?)
    && s.received == s.scattered
  }

  lemma {:induction false} NoRests(senders: seq<Sender>)
    requires forall c :: 0 <= c < |senders| ==> !senders[c].Sending?
    ensures Rests(senders) == multiset{}
  {
    if senders != [] {
      NoRests(senders[..|senders| - 1]);
    }
  }

  lemma StuckSendsNothing(s: State)
    requires Inv(s) && Stuck(s)
    ensures forall c :: 0 <= c < |s.senders| ==> !s.senders[c].Sending?
  {
    forall c | 0 <= c < |s.senders|
      ensures !s.senders[c].Sending?
    {
      if s.closes == 1 {
        ClosedIsDone(s);
      }
      assert !Enabled(s, Signal(c)) && !Enabled(s, Receive(c));
    }
  }

  lemma TimerRings(s: State)
    requires s.phase.Looping? && s.armed
    ensures !Stuck(s)
  {
    assert Enabled(s, Timeout(seq(|s.senders|, _ => [])));
  }

  /** The only place to get stuck is the loop after one cluster was asked, with no timer to ask the others. */
  lemma StuckIsClean(s: State)
    requires Inv(s) && Stuck(s)
    requires s.phase.Looping? && !s.maySendAll ==> s.armed || |s.senders| == 1
    ensures Clean(s)
  {
    hide CountDone, Rests;
    StuckSendsNothing(s);
    DoneBound(s.senders);
    NoRests(s.senders);
    assert !Enabled(s, Close) && !Enabled(s, SeeClosed);
    if s.phase.Looping? && s.armed {
      TimerRings(s);
    }
    if s.phase.Looping? && |s.senders| == 1 {
      OneIsDone(s);
    }
    assert s.received + multiset{} == s.received;
  }

  lemma OneIsDone(s: State)
    requires Inv(s) && |s.senders| == 1 && !s.senders[0].Sending? && s.phase.Looping?
    ensures s.maySendAll || s.signals == 1
  {
    DoneBound(s.senders);
  }

  /** The condition under which the loop can be left: a permit, a timer, a sole cluster, or a complete answer. */
  predicate CanFinish(s: State, granted: bool, timed: bool, chosen: nat)
    requires Init(s, granted, timed, chosen)
  {
    granted || timed || |s.senders| == 1 ||
    (s.asked != {} && forall k :: k in s.asked ==> HasOk(s.senders[chosen].rest, k))
  }

  predicate HasOk(rest: seq<Element>, k: Key) {
    exists i :: 0 <= i < |rest| && rest[i].ok && rest[i].key == k
  }

  /** Some sender still has an answer to `k` without error. */
  predicate Coming(s: State, k: Key) {
    exists c :: 0 <= c < |s.senders| && s.senders[c].Sending? && HasOk(s.senders[c].rest, k)
  }

  /** What keeps the loop from waiting for ever. */
  predicate Hopeful(s: State) {
    s.phase.Looping? && !s.maySendAll ==>
      s.armed || |s.senders| == 1 || (s.remaining != {} && forall k :: k in s.remaining ==> Coming(s, k))
  }

  /** What keeps the loop waiting for ever: no timer, others unasked, and a key that is never answered. */
  predicate Hopeless(s: State) {
    && s.phase.Looping? && !s.maySendAll && !s.armed && |s.senders| > 1
    && (s.asked == {} || exists k :: k in s.remaining && !Coming(s, k))
  }

  lemma ComingStays(s: State, c: nat, k: Key)
    requires Enabled(s, Receive(c))
    ensures var e := s.senders[c].rest[0];
            var t := s.(senders := s.senders[c := Sending(s.senders[c].rest[1..])]);
            && (Coming(t, k) ==> Coming(s, k))
            && (Coming(s, k) && !(e.ok && e.key == k) ==> Coming(t, k))
  {
    var rest := s.senders[c].rest;
    var t := s.(senders := s.senders[c := Sending(rest[1..])]);
    if Coming(t, k) {
      var d :| 0 <= d < |t.senders| && t.senders[d].Sending? && HasOk(t.senders[d].rest, k);
      if d == c {
        var i :| 0 <= i < |rest[1..]| && rest[1..][i].ok && rest[1..][i].key == k;
        assert rest[i + 1] == rest[1..][i];
      }
      assert HasOk(s.senders[d].rest, k);
    }
    if Coming(s, k) && !(rest[0].ok && rest[0].key == k) {
      var d :| 0 <= d < |s.senders| && s.senders[d].Sending? && HasOk(s.senders[d].rest, k);
      if d == c {
        var i :| 0 <= i < |rest| && rest[i].ok && rest[i].key == k;
        assert rest[1..][i - 1] == rest[i];
      }
      assert HasOk(t.senders[d].rest, k);
    }
  }

  lemma SameComing(s: State, t: State, c: nat, k: Key)
    requires IsSending(s, c) && s.senders[c].rest == [] && t.senders == s.senders[c := Finished]
    ensures Coming(t, k) <==> Coming(s, k)
  {
    if Coming(s, k) {
      var d :| 0 <= d < |s.senders| && s.senders[d].Sending? && HasOk(s.senders[d].rest, k);
      assert t.senders[d] == s.senders[d];
    }
    if Coming(t, k) {
      var d :| 0 <= d < |t.senders| && t.senders[d].Sending? && HasOk(t.senders[d].rest, k);
      assert t.senders[d] == s.senders[d];
    }
  }

  /** While the loop waits for one cluster, a hand-over leaves the other keys as they were. */
  lemma ReceiveWaiting(s: State, c: nat)
    requires Inv(s) && Enabled(s, Receive(c)) && s.phase.Looping? && !s.maySendAll
    ensures var t := After(s, Receive(c));
            && |t.senders| == |s.senders| && t.asked == s.asked
            && (t.phase.Looping? ==>
                  && t.armed == s.armed && t.maySendAll == s.maySendAll
                  && (s.remaining != {} ==> t.remaining != {})
                  && forall k :: k in t.remaining ==> k in s.remaining && (Coming(t, k) <==> Coming(s, k)))
            && (forall k :: k in s.remaining && !Coming(s, k) ==> k in t.remaining)
            && (!t.phase.Looping? ==> t.remaining == {})
  {
    hide Coming, Counted;
    var t := After(s, Receive(c));
    var moved := s.(senders := s.senders[c := Sending(s.senders[c].rest[1..])]);
    forall k
      ensures Coming(moved, k) ==> Coming(s, k)
      ensures Coming(s, k) && !(s.senders[c].rest[0].ok && s.senders[c].rest[0].key == k) ==> Coming(moved, k)
    {
      ComingStays(s, c, k);
    }
    if s.senders[c].rest[0].ok {
      ComingSelf(s, c);
    }
    SendersDecide(t, moved);
  }

  lemma ComingSelf(s: State, c: nat)
    requires IsSending(s, c) && s.senders[c].rest != [] && s.senders[c].rest[0].ok
    ensures Coming(s, s.senders[c].rest[0].key)
  {
    assert HasOk(s.senders[c].rest, s.senders[c].rest[0].key);
  }

  lemma SendersDecide(s: State, t: State)
    ensures s.senders == t.senders ==> forall k :: Coming(s, k) <==> Coming(t, k)
  {
  }

  lemma HopefulKeeps(s: State, step: Step)
    requires Inv(s) && Enabled(s, step) && Hopeful(s)
    ensures Hopeful(After(s, step))
  {
    hide Coming, Counted;
    if s.phase.Looping? && !s.maySendAll {
      match step
      case Receive(c) => ReceiveWaiting(s, c);
      case Signal(c) =>
        forall k
          ensures Coming(After(s, step), k) <==> Coming(s, k)
        {
          SameComing(s, After(s, step), c, k);
        }
      case Close => SendersDecide(s, After(s, step));
      case _ =>
    }
  }

  lemma HopelessKeeps(s: State, step: Step)
    requires Inv(s) && Enabled(s, step) && Hopeless(s)
    ensures Hopeless(After(s, step))
  {
    hide Coming;
    NotAllDone(s);
    match step
    case Receive(c) =>
      assert RestRemains(s, c) && s.senders[c].rest[0].key in s.remaining;
      ReceiveWaiting(s, c);
    case Signal(c) =>
      forall k
        ensures Coming(After(s, step), k) <==> Coming(s, k)
      {
        SameComing(s, After(s, step), c, k);
      }
    case _ =>
  }

  lemma NotAllDone(s: State)
    requires Inv(s) && s.phase.Looping? && !s.maySendAll && |s.senders| > 1
    ensures s.signals < |s.senders| && s.closes == 0
  {
    DoneBound(s.senders);
    assert s.senders[0].Unused? || s.senders[1].Unused?;
  }

  lemma HopefulIsClean(s: State)
    requires Inv(s) && Stuck(s) && Hopeful(s)
    ensures Clean(s)
  {
    StuckSendsNothing(s);
    if s.remaining != {} {
      var k :| k in s.remaining;
      assert !Coming(s, k);
    }
    StuckIsClean(s);
  }

  lemma {:induction false} HopeRuns(s: State, steps: seq<Step>)
    requires Inv(s) && Runs(s, steps)
    ensures Hopeful(s) ==> Hopeful(Final(s, steps))
    ensures Hopeless(s) ==> Hopeless(Final(s, steps))
    decreases |steps|
  {
    if steps != [] {
      StepKeeps(s, steps[0]);
      if Hopeful(s) {
        HopefulKeeps(s, steps[0]);
      }
      if Hopeless(s) {
        HopelessKeeps(s, steps[0]);
      }
      hide Inv, After, Enabled, Hopeful, Hopeless;
      HopeRuns(After(s, steps[0]), steps[1..]);
    }
  }

  lemma {:induction false} SomeRunEnds(s: State) returns (steps: seq<Step>)
    requires Inv(s)
    ensures Runs(s, steps) && Stuck(Final(s, steps))
    decreases Work(s)
  {
    if Stuck(s) {
      steps := [];
    } else {
      var step :| Enabled(s, step);
      StepKeeps(s, step);
      WorkShrinks(s, step);
      hide Inv, After, Enabled, Work;
      var rest := SomeRunEnds(After(s, step));
      steps := [step] + rest;
      assert steps[1..] == rest;
    }
  }

  lemma InitHope(s: State, granted: bool, timed: bool, chosen: nat)
    requires Init(s, granted, timed, chosen)
    ensures CanFinish(s, granted, timed, chosen) ==> Hopeful(s)
    ensures !CanFinish(s, granted, timed, chosen) ==> Hopeless(s)
  {
    if !granted {
      forall k
        ensures Coming(s, k) <==> HasOk(s.senders[chosen].rest, k)
      {
      }
    }
  }

  /** Every schedule ends, and each ends cleanly exactly when the loop could be left. */
  lemma EndsCleanlyIff(s: State, granted: bool, timed: bool, chosen: nat)
    requires Init(s, granted, timed, chosen)
    ensures forall steps :: Runs(s, steps) ==> |steps| <= Work(s)
    ensures CanFinish(s, granted, timed, chosen) <==>
            forall steps :: Runs(s, steps) && Stuck(Final(s, steps)) ==> Clean(Final(s, steps))
  {
    InitInv(s, granted, timed, chosen);
    InitHope(s, granted, timed, chosen);
    hide Init, CanFinish, Hopeful, Hopeless, Inv, Work;
    forall steps | Runs(s, steps)
      ensures |steps| <= Work(s)
      ensures Hopeful(s) && Stuck(Final(s, steps)) ==> Clean(Final(s, steps))
    {
      RunKeeps(s, steps);
      HopeRuns(s, steps);
      if Hopeful(s) && Stuck(Final(s, steps)) {
        HopefulIsClean(Final(s, steps));
      }
    }
    if Hopeless(s) {
      var steps := SomeRunEnds(s);
      HopeRuns(s, steps);
      HopelessIsUnclean(Final(s, steps));
    }
  }

  lemma HopelessIsUnclean(s: State)
    requires Hopeless(s)
    ensures !Clean(s)
  {
  }

  /** What the caller is told, in every state of every run. */
  lemma OutcomeTellsResponses(s: State, granted: bool, timed: bool, chosen: nat, steps: seq<Step>)
    requires Init(s, granted, timed, chosen) && Runs(s, steps)
    ensures var e := Final(s, steps);
            && e.closes <= 1 && e.signals <= |e.senders| && e.received <= e.scattered
            && (e.outcome.Full? ==> forall k :: k in e.asked ==> Answered(e, k))
            && (e.outcome.Partial? ==> !NoResponse(e) && exists k :: k in e.asked && !Answered(e, k))
            && (e.outcome.CompleteFailure? ==> NoResponse(e) && e.asked != {})
  {
    InitInv(s, granted, timed, chosen);
    RunKeeps(s, steps);
    var e := Final(s, steps);
    DoneBound(e.senders);
    if e.remaining != {} {
      var k :| k in e.remaining;
    }
  }

  // ---------- first responses ----------

  /** The loop goes on only while some key has no response; without keys it takes the first event as it comes. */
  predicate StillLooking(s: State) {
    s.phase.Looping? && s.asked != {} ==> s.remaining != {}
  }

  lemma {:induction false} LookingKeeps(s: State, steps: seq<Step>)
    requires Runs(s, steps) && StillLooking(s)
    ensures StillLooking(Final(s, steps))
    decreases |steps|
  {
    if steps != [] {
      LookingKeeps(After(s, steps[0]), steps[1..]);
    }
  }

  lemma {:induction false} OutcomeStays(s: State, steps: seq<Step>)
    requires Runs(s, steps) && !s.phase.Looping?
    ensures Final(s, steps).outcome == s.outcome && !Final(s, steps).phase.Looping?
    decreases |steps|
  {
    if steps != [] {
      OutcomeStays(After(s, steps[0]), steps[1..]);
    }
  }

  /**
    The call answers from the first responses: in every state of every run it waits only while some key has no
    response, it has told its outcome as soon as it waits no more, and later responses do not change that.
    */
  lemma AnswersFromFirst(s: State, granted: bool, timed: bool, chosen: nat, steps: seq<Step>, more: seq<Step>)
    requires Init(s, granted, timed, chosen) && Runs(s, steps) && Runs(Final(s, steps), more)
    ensures var e := Final(s, steps);
            && (e.phase.Looping? && e.asked != {} ==> exists k :: k in e.asked && !Answered(e, k))
            && (e.outcome.Pending? <==> e.phase.Looping?)
            && (!e.phase.Looping? ==> Final(e, more).outcome == e.outcome)
  {
    InitInv(s, granted, timed, chosen);
    RunKeeps(s, steps);
    LookingKeeps(s, steps);
    var e := Final(s, steps);
    if !e.phase.Looping? {
      OutcomeStays(e, more);
    }
    hide Runs, Final, Counted, Answered;
    if e.phase.Looping? && e.asked != {} {
      var k :| k in e.remaining;
    }
  }

  /** The promotion starts a request at exactly the clusters not asked yet, and each is asked for unanswered keys only. */
  lemma PromotionAsksUnanswered(s: State, streams: seq<seq<Element>>)
    requires Inv(s) && Enabled(s, Timeout(streams))
    ensures var t := After(s, Timeout(streams));
            && t.maySendAll && !t.armed && |t.senders| == |s.senders|
            && forall c :: 0 <= c < |s.senders| ==>
                 if s.senders[c].Unused? then
                   t.senders[c] == Sending(streams[c])
                   && forall i :: 0 <= i < |streams[c]| ==>
                        streams[c][i].key in s.asked && !Answered(s, streams[c][i].key)
                 else t.senders[c] == s.senders[c]
  {
    hide Counted, PhaseOk, Answered;
  }
}
