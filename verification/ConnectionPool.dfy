/**
  The connection pool of one Redis instance: a queue of idle connections, a counter of those given out,
  and a condition variable on which `get` waits. Each section under the mutex is one step; which waiter a
  signal wakes, whether a dial succeeds and whether a returned connection is broken are left open.
  */
module ConnectionPool {

  type Thread = nat
  type Conn = nat

  datatype Option<T> = None | Some(value: T)

  /** What a caller between `get` and `put` has: a slot it is dialing for, no connection, or a connection. */
  datatype Hold = Dialing | Failed | Has(conn: Conn)

  /** `waiting` is blocked on the condition, `woken` was signalled and has yet to take the mutex again. */
  datatype Pool = Pool(
    max: int,
    available: seq<Conn>,
    holders: map<Thread, Hold>,
    waiting: set<Thread>,
    woken: set<Thread>,
    dialed: nat)

  datatype Step =
    | Get(thread: Thread)
    | Resume(thread: Thread)
    | Dialed(thread: Thread, ok: bool)
    | Put(thread: Thread, broken: bool, wake: Option<Thread>)
    | CloseAll

  predicate Idle(p: Pool, t: Thread) {
    t !in p.holders && t !in p.waiting && t !in p.woken
  }

  /** A signal wakes one waiter if there is one. */
  predicate MayWake(waiting: set<Thread>, wake: Option<Thread>) {
    match wake
    case None => waiting == {}
    case Some(t) => t in waiting
  }

  predicate Enabled(p: Pool, step: Step) {
    match step
    case Get(t) => Idle(p, t)
    case Resume(t) => t in p.woken
    case Dialed(t, _) => t in p.holders && p.holders[t].Dialing?
    case Put(t, _, wake) => t in p.holders && !p.holders[t].Dialing? && MayWake(p.waiting, wake)
    case CloseAll => true
  }

  function Outstanding(p: Pool): nat {
    |p.holders|
  }

  /** A pass through the loop of `get`: the oldest idle connection, else a free slot, else wait. */
  function Pass(p: Pool, t: Thread): Pool {
    if p.available != [] then
      p.(available := p.available[1..], holders := p.holders[t := Has(p.available[0])])
    else if Outstanding(p) < p.max then
      p.(holders := p.holders[t := Dialing])
    else
      p.(waiting := p.waiting + {t})
  }

  function Signalled(p: Pool, wake: Option<Thread>): Pool {
    match wake
    case None => p
    case Some(t) => p.(waiting := p.waiting - {t}, woken := p.woken + {t})
  }

  function Returned(p: Pool, t: Thread, broken: bool): Pool
    requires t in p.holders
  {
    var rest := p.(holders := p.holders - {t});
    if p.holders[t].Has? && !broken then rest.(available := p.available + [p.holders[t].conn]) else rest
  }

  function After(p: Pool, step: Step): Pool
    requires Enabled(p, step)
  {
    match step
    case Get(t) => Pass(p, t)
    case Resume(t) => Pass(p.(woken := p.woken - {t}), t)
    case Dialed(t, ok) =>
      if ok then p.(holders := p.holders[t := Has(p.dialed)], dialed := p.dialed + 1)
      else p.(holders := p.holders[t := Failed])
    case Put(t, broken, wake) => Signalled(Returned(p, t, broken), wake)
    case CloseAll => p.(available := [])
  }

  // ---------- the invariant ----------

  function Capacity(p: Pool): nat {
    if p.max < 0 then 0 else p.max
  }

  predicate Bounded(p: Pool) {
    |p.available| + Outstanding(p) <= Capacity(p)
  }

  /** Every connection is in one place: once in the queue, or with one holder. */
  predicate OnePlace(p: Pool) {
    && (forall i :: 0 <= i < |p.available| ==> p.available[i] < p.dialed)
    && (forall i, j :: 0 <= i < j < |p.available| ==> p.available[i] != p.available[j])
    && (forall t :: t in p.holders && p.holders[t].Has? ==> p.holders[t].conn < p.dialed && p.holders[t].conn !in p.available)
    && (forall t, u :: t in p.holders && u in p.holders && p.holders[t].Has? && p.holders[t] == p.holders[u] ==> t == u)
  }

  predicate Separate(p: Pool) {
    && p.waiting !! p.woken
    && (forall t :: t in p.holders ==> t !in p.waiting && t !in p.woken)
  }

  /** No lost wakeup: while anyone is blocked, enough others have been woken to use every free slot. */
  predicate NoLostWakeup(p: Pool) {
    p.waiting != {} ==> |p.woken| >= p.max - Outstanding(p)
  }

  predicate Inv(p: Pool) {
    Bounded(p) && OnePlace(p) && Separate(p) && NoLostWakeup(p)
  }

  predicate Init(p: Pool) {
    p.available == [] && p.holders == map[] && p.waiting == {} && p.woken == {}
  }

  lemma InsertSize(m: map<Thread, Hold>, t: Thread, h: Hold)
    ensures |m[t := h]| == if t in m then |m| else |m| + 1
  {
    assert m[t := h].Keys == m.Keys + {t};
    assert |m| == |m.Keys|;
    assert |m[t := h]| == |m[t := h].Keys|;
  }

  lemma RemoveSize(m: map<Thread, Hold>, t: Thread)
    requires t in m
    ensures |m - {t}| == |m| - 1
  {
    assert (m - {t}).Keys == m.Keys - {t};
    assert |m| == |m.Keys|;
    assert |m - {t}| == |(m - {t}).Keys|;
  }

  lemma PassKeeps(p: Pool, t: Thread)
    requires Bounded(p) && OnePlace(p) && Separate(p) && Idle(p, t)
    requires p.waiting != {} ==> |p.woken| + 1 >= p.max - Outstanding(p)
    requires p.waiting != {} && Outstanding(p) >= p.max ==> |p.woken| >= p.max - Outstanding(p)
    ensures Inv(Pass(p, t))
  {
    if p.available != [] {
      InsertSize(p.holders, t, Has(p.available[0]));
    } else {
      InsertSize(p.holders, t, Dialing);
    }
  }

  lemma ReturnedKeeps(p: Pool, t: Thread, broken: bool)
    requires Inv(p) && t in p.holders && !p.holders[t].Dialing?
    ensures var q := Returned(p, t, broken);
            && Bounded(q) && OnePlace(q) && Separate(q) && Outstanding(q) == Outstanding(p) - 1
            && q.waiting == p.waiting && q.woken == p.woken && q.max == p.max
  {
    RemoveSize(p.holders, t);
  }

  lemma PutKeeps(p: Pool, t: Thread, broken: bool, wake: Option<Thread>)
    requires Inv(p) && Enabled(p, Put(t, broken, wake))
    ensures Inv(After(p, Put(t, broken, wake)))
  {
    ReturnedKeeps(p, t, broken);
    var q := Returned(p, t, broken);
    hide Returned, OnePlace;
    if wake.Some? {
      assert |Signalled(q, wake).woken| == |q.woken| + 1;
    }
    SignalKeepsPlaces(q, wake);
  }

  lemma SignalKeepsPlaces(q: Pool, wake: Option<Thread>)
    ensures OnePlace(q) ==> OnePlace(Signalled(q, wake))
  {
  }

  lemma DialKeeps(p: Pool, t: Thread, ok: bool)
    requires Inv(p) && Enabled(p, Dialed(t, ok))
    ensures Inv(After(p, Dialed(t, ok)))
  {
    InsertSize(p.holders, t, After(p, Dialed(t, ok)).holders[t]);
  }

  lemma StepKeeps(p: Pool, step: Step)
    requires Inv(p) && Enabled(p, step)
    ensures Inv(After(p, step))
  {
    match step
    case Get(t) => PassKeeps(p, t);
    case Resume(t) =>
      PassKeeps(p.(woken := p.woken - {t}), t);
    case Dialed(t, ok) => DialKeeps(p, t, ok);
    case Put(t, broken, wake) => PutKeeps(p, t, broken, wake);
    case CloseAll =>
  }

  // ---------- runs ----------

  ghost predicate Runs(p: Pool, steps: seq<Step>)
    decreases |steps|
  {
    steps == [] || (Enabled(p, steps[0]) && Runs(After(p, steps[0]), steps[1..]))
  }

  ghost function Final(p: Pool, steps: seq<Step>): Pool
    requires Runs(p, steps)
    decreases |steps|
  {
    if steps == [] then p else Final(After(p, steps[0]), steps[1..])
  }

  /** Safety and no lost wakeup, in every state of every run. */
  lemma {:induction false} Safety(p: Pool, steps: seq<Step>)
    requires Inv(p) && Runs(p, steps)
    ensures Inv(Final(p, steps)) && Final(p, steps).max == p.max
    decreases |steps|
  {
    if steps != [] {
      hide Inv;
      StepKeeps(p, steps[0]);
      Safety(After(p, steps[0]), steps[1..]);
    }
  }

  /**
    The idle connections are a queue: a caller is given the one that has been idle longest, a connection comes
    back at the end if it works, and nothing else but closing touches them.
    */
  lemma QueueOrder(p: Pool, step: Step)
    requires Enabled(p, step)
    ensures var q := After(p, step);
            match step
            case Get(t) => Takes(p, q, t)
            case Resume(t) => Takes(p, q, t)
            case Dialed(_, _) => q.available == p.available
            case Put(t, broken, _) =>
              q.available == if broken || p.holders[t] == Failed then p.available else p.available + [p.holders[t].conn]
            case CloseAll => q.available == []
  {
  }

  predicate Takes(p: Pool, q: Pool, t: Thread) {
    if p.available == [] then q.available == []
    else q.available == p.available[1..] && t in q.holders && q.holders[t] == Has(p.available[0])
  }

  /** A blocked caller is never stranded: someone woken or holding will move. */
  lemma NobodyStranded(p: Pool)
    requires Inv(p) && p.max > 0 && p.waiting != {}
    ensures p.woken != {} || exists t :: t in p.holders
  {
    if p.woken == {} {
      assert |p.holders| >= 1;
      assert p.holders.Keys != {};
      var t :| t in p.holders.Keys;
    }
  }

  // ---------- everyone is served ----------

  function DialingIn(m: map<Thread, Hold>): set<Thread> {
    set t | t in m && m[t].Dialing?
  }

  /** What the callers still have to go through. */
  function Work(p: Pool): nat {
    3 * |p.waiting| + 4 * |p.woken| + 2 * |p.holders| + |DialingIn(p.holders)|
  }

  predicate Newcomer(step: Step) {
    step.Get? || step.CloseAll?
  }

  lemma PassWork(p: Pool, t: Thread)
    requires Idle(p, t)
    ensures Work(Pass(p, t)) <= Work(p) + 3
  {
    if p.available != [] {
      InsertSize(p.holders, t, Has(p.available[0]));
      assert DialingIn(Pass(p, t).holders) == DialingIn(p.holders);
    } else if Outstanding(p) < p.max {
      InsertSize(p.holders, t, Dialing);
      assert DialingIn(Pass(p, t).holders) == DialingIn(p.holders) + {t};
    }
  }

  lemma PassShrinks(p: Pool, t: Thread)
    requires Inv(p) && t in p.woken
    ensures Work(After(p, Resume(t))) < Work(p)
  {
    hide OnePlace, Pass;
    var q := p.(woken := p.woken - {t});
    assert |q.woken| == |p.woken| - 1;
    PassWork(q, t);
  }

  lemma DialShrinks(p: Pool, t: Thread, ok: bool)
    requires Enabled(p, Dialed(t, ok))
    ensures Work(After(p, Dialed(t, ok))) < Work(p)
  {
    var q := After(p, Dialed(t, ok));
    InsertSize(p.holders, t, q.holders[t]);
    assert DialingIn(q.holders) == DialingIn(p.holders) - {t};
  }

  lemma PutShrinks(p: Pool, t: Thread, broken: bool, wake: Option<Thread>)
    requires Inv(p) && Enabled(p, Put(t, broken, wake))
    ensures Work(After(p, Put(t, broken, wake))) < Work(p)
  {
    RemoveSize(p.holders, t);
    var r := Returned(p, t, broken);
    assert DialingIn(r.holders) == DialingIn(p.holders);
    SignalWork(r, wake);
  }

  lemma SignalWork(p: Pool, wake: Option<Thread>)
    requires MayWake(p.waiting, wake) && p.waiting !! p.woken
    ensures Work(Signalled(p, wake)) <= Work(p) + 1
  {
    if wake.Some? {
      var q := Signalled(p, wake);
      assert |q.waiting| == |p.waiting| - 1;
      assert |q.woken| == |p.woken| + 1;
    }
  }

  lemma WorkShrinks(p: Pool, step: Step)
    requires Inv(p) && Enabled(p, step) && !Newcomer(step)
    ensures Work(After(p, step)) < Work(p)
  {
    match step
    case Resume(t) => PassShrinks(p, t);
    case Dialed(t, ok) => DialShrinks(p, t, ok);
    case Put(t, broken, wake) => PutShrinks(p, t, broken, wake);
  }

  predicate NoNewcomer(steps: seq<Step>) {
    forall i :: 0 <= i < |steps| ==> !Newcomer(steps[i])
  }

  ghost predicate Stuck(p: Pool) {
    forall step :: Enabled(p, step) ==> Newcomer(step)
  }

  lemma {:induction false} RunsEnd(p: Pool, steps: seq<Step>)
    requires Inv(p) && Runs(p, steps) && NoNewcomer(steps)
    ensures |steps| + Work(Final(p, steps)) <= Work(p)
    decreases |steps|
  {
    if steps != [] {
      hide Inv, Work;
      WorkShrinks(p, steps[0]);
      StepKeeps(p, steps[0]);
      RunsEnd(After(p, steps[0]), steps[1..]);
    }
  }

  lemma StuckIsIdle(p: Pool)
    requires Inv(p) && p.max > 0 && Stuck(p)
    ensures p.waiting == {} && p.woken == {} && p.holders == map[]
  {
    forall t
      ensures t !in p.woken
    {
      assert t in p.woken ==> Enabled(p, Resume(t));
    }
    forall t
      ensures t !in p.holders
    {
      if t in p.holders {
        CanMove(p, t);
      }
    }
    assert p.holders == map[];
    if p.waiting != {} {
      NobodyStranded(p);
    }
  }

  lemma CanMove(p: Pool, t: Thread)
    requires t in p.holders
    ensures !Stuck(p)
  {
    if p.holders[t].Dialing? {
      assert Enabled(p, Dialed(t, true)) && !Newcomer(Dialed(t, true));
    } else if p.waiting == {} {
      assert Enabled(p, Put(t, false, None)) && !Newcomer(Put(t, false, None));
    } else {
      var w :| w in p.waiting;
      assert Enabled(p, Put(t, false, Some(w))) && !Newcomer(Put(t, false, Some(w)));
    }
  }

  /**
    Without newcomers every schedule ends, within a bound that its start sets, and where it ends every
    caller has had its turn: starvation needs someone new to steal the slot.
    */
  lemma EveryoneServed(p: Pool, steps: seq<Step>)
    requires Inv(p) && p.max > 0 && Runs(p, steps) && NoNewcomer(steps)
    ensures |steps| <= Work(p)
    ensures Stuck(Final(p, steps)) ==>
              var q := Final(p, steps); q.waiting == {} && q.woken == {} && q.holders == map[]
  {
    RunsEnd(p, steps);
    Safety(p, steps);
    if Stuck(Final(p, steps)) {
      StuckIsIdle(Final(p, steps));
    }
  }

  /** A pool that may hold no connection blocks every caller for good. */
  lemma EmptyPoolBlocks(p: Pool, steps: seq<Step>)
    requires Init(p) && p.max <= 0 && Runs(p, steps)
    ensures Final(p, steps).holders == map[] && Final(p, steps).woken == {}
  {
    Safety(p, steps);
    EmptyPoolKeeps(p, steps);
  }

  lemma {:induction false} EmptyPoolKeeps(p: Pool, steps: seq<Step>)
    requires Runs(p, steps) && p.max <= 0 && p.available == [] && p.holders == map[] && p.woken == {}
    ensures Final(p, steps).holders == map[] && Final(p, steps).woken == {}
    decreases |steps|
  {
    if steps != [] {
      EmptyPoolKeeps(After(p, steps[0]), steps[1..]);
    }
  }

  // ---------- the pool object ----------

  /** What a pass of `get` tells its caller: wait, dial, or use this connection. */
  datatype Verdict = Wait | Dial | Use(conn: Conn)

  /**
    The fields the program has, and the step machine `callers` they stand in. The methods keep the
    program's defensive tests; the machine has none, so each method also shows that they are never needed.
    */
  class PoolObject {
    var available: seq<Conn>
    var outstanding: int
    const max: int
    ghost var callers: Pool

    ghost predicate Valid()
      reads this
    {
      && Inv(callers) && callers.max == max
      && callers.available == available && Outstanding(callers) == outstanding
    }

    constructor (maxConnections: int)
      ensures Valid() && Init(callers) && max == maxConnections
    {
      available, outstanding, max := [], 0, maxConnections;
      callers := Pool(maxConnections, [], map[], {}, {}, 0);
    }

    /** One pass through the loop under the mutex, on entry or after a signal. */
    method GetPass(t: Thread, resumed: bool) returns (verdict: Verdict)
      requires Valid() && Enabled(callers, if resumed then Resume(t) else Get(t))
      modifies this
      ensures Valid() && callers == After(old(callers), if resumed then Resume(t) else Get(t))
      ensures t in callers.waiting <==> verdict.Wait?
      ensures !verdict.Wait? ==> t in callers.holders &&
                                 callers.holders[t] == if verdict.Dial? then Dialing else Has(verdict.conn)
    {
      var step := if resumed then Resume(t) else Get(t);
      StepKeeps(callers, step);
      ghost var next := After(callers, step);
      InsertSize(callers.holders, t, Dialing);
      if |available| <= 0 && outstanding >= max {
        verdict := Wait;
      } else if |available| <= 0 {
        outstanding := outstanding + 1;
        verdict := Dial;
      } else {
        InsertSize(callers.holders, t, Has(available[0]));
        verdict, available := Use(available[0]), available[1..];
        if outstanding < max {
          outstanding := outstanding + 1;
        }
      }
      callers := next;
    }

    /** The dial happens outside the mutex and changes none of the pool's fields. */
    ghost method DialEnds(t: Thread, ok: bool)
      requires Valid() && Enabled(callers, Dialed(t, ok))
      modifies this`callers
      ensures Valid() && callers == After(old(callers), Dialed(t, ok))
    {
      StepKeeps(callers, Dialed(t, ok));
      InsertSize(callers.holders, t, After(callers, Dialed(t, ok)).holders[t]);
      callers := After(callers, Dialed(t, ok));
    }

    /** `conn` is none for a nil connection; `err` is its recorded error, and `wake` whom the signal reaches. */
    method Put(t: Thread, conn: Option<Conn>, err: bool, wake: Option<Thread>)
      requires Valid() && Enabled(callers, Step.Put(t, err, wake))
      requires callers.holders[t] == match conn case None => Failed case Some(c) => Has(c)
      modifies this
      ensures Valid() && callers == After(old(callers), Step.Put(t, err, wake))
    {
      StepKeeps(callers, Step.Put(t, err, wake));
      RemoveSize(callers.holders, t);
      ghost var next := After(callers, Step.Put(t, err, wake));
      if conn.None? || err {
        if outstanding > 0 {
          outstanding := outstanding - 1;
        }
        callers := next;
        return;
      }
      if |available| >= max {
        return;
      }
      available := available + [conn.value];
      if outstanding > 0 {
        outstanding := outstanding - 1;
      }
      callers := next;
    }

    /** `closed` lists the connections closed, each idle one once. */
    method CloseAll() returns (closed: seq<Conn>)
      requires Valid()
      modifies this
      ensures Valid() && callers == After(old(callers), Step.CloseAll)
      ensures closed == old(available)
    {
      closed := [];
      for i := 0 to |available|
        invariant closed == available[..i]
      {
        closed := closed + [available[i]];
      }
      StepKeeps(callers, Step.CloseAll);
      callers := After(callers, Step.CloseAll);
      available := [];
    }
  }
}
