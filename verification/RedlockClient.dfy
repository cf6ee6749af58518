/**
  The client class in the form the program has it: retry loops over the server list, a counter of grants,
  and the field that remembers the value `ContinueLock` replaces. Everything it does to the world is a
  step of the machine in `Redlock`, so what is proved of the machine's runs holds of its calls.
  */
module RedlockClient {
  import opened Redlock

  /** What happens around one of the client's actions: steps of others before it, and its outcome. */
  datatype Chance = Chance(steps: seq<Step>, outcome: Outcome)

  /** The servers, the clocks and the other clients. `future` decides everything the client does not. */
  class World {
    var s: State
    var future: seq<Chance>
    ghost var first: State
    ghost var past: seq<Step>

    ghost predicate Valid()
      reads this
    {
      Inv(s) && Runs(first, past) && Final(first, past) == s
    }

    constructor (s: State, future: seq<Chance>)
      requires Init(s)
      ensures Valid() && this.s == s && past == []
    {
      this.s, this.future, this.first, this.past := s, future, s, [];
      assert Inv(s);
    }

    /** The client's own step. */
    method Do(step: Step)
      requires Valid() && Enabled(s, step)
      modifies this`s, this`past
      ensures Valid() && first == old(first)
      ensures s == After(old(s), step) && past == old(past) + [step]
      ensures forall c :: Made(past, c) == old(Made(past, c)) + if step == Act(c, Attempt) then 1 else 0
    {
      hide After, Enabled, Inv;
      InvWellFormed(s);
      RunsSnoc(first, past, step);
      StepInv(s, step);
      forall c
        ensures Made(past + [step], c) == Made(past, c) + if step == Act(c, Attempt) then 1 else 0
      {
        MadeSnoc(past, step, c);
      }
      past := past + [step];
      s := After(s, step);
    }

    /** Time passes and others act; client `c` keeps its place in its program. */
    method Others(c: Client) returns (outcome: Outcome)
      requires Valid() && c in s.clients
      modifies this
      ensures Valid() && first == old(first) && old(past) <= past && Made(past, c) == old(Made(past, c))
      ensures Undisturbed(old(s), s, c)
    {
      outcome := Replied;
      if future != [] {
        var steps := future[0].steps;
        outcome := future[0].outcome;
        future := future[1..];
        for i := 0 to |steps|
          invariant Valid() && first == old(first) && old(past) <= past && Made(past, c) == old(Made(past, c))
          invariant Undisturbed(old(s), s, c)
        {
          if Enabled(s, steps[i]) && Foreign(steps[i], c) {
            ForeignStep(s, steps[i], c);
            ghost var before := s;
            Do(steps[i]);
            assert Undisturbed(before, s, c);
          }
        }
      }
    }
  }

  /** How many attempts client `c` has begun. */
  function Made(past: seq<Step>, c: Client): nat {
    if past == [] then 0
    else Made(past[..|past| - 1], c) + if past[|past| - 1] == Act(c, Attempt) then 1 else 0
  }

  lemma MadeSnoc(past: seq<Step>, step: Step, c: Client)
    ensures Made(past + [step], c) == Made(past, c) + if step == Act(c, Attempt) then 1 else 0
  {
    assert (past + [step])[..|past|] == past;
  }

  predicate Foreign(step: Step, c: Client) {
    step.Act? ==> step.client != c || step.action.RunLate?
  }

  /** What the steps of others leave alone. */
  ghost predicate Undisturbed(s: State, s': State, c: Client) {
    && c in s.clients && c in s'.clients
    && s'.clients[c].phase == s.clients[c].phase && s'.clients[c].continued == s.clients[c].continued
    && |s'.clocks| == |s.clocks| && s.now <= s'.now
    && (forall t :: t in s.issued ==> t in s'.issued && s'.issued[t] == s.issued[t])
    && (forall r, t, k: nat :: Drew(s, c, t) && FreedAt(s, c, r, t, k) ==> FreedAt(s', c, r, t, k))
  }

  /** A server that client `c` can still reach does not hold its token `t`. */
  predicate FreedAt(s: State, c: Client, r: Resource, t: Token, k: nat)
    requires c in s.clients
  {
    && k < |s.keys| && k < |s.clocks| && k < |s.clients[c].links|
    && (s.clients[c].links[k].Up? ==> !HoldsToken(s.keys[k], s.clocks[k].Floor, r, t))
  }

  lemma RunKeepsFreed(s: State, server: nat, cmd: Command, c: Client, r: Resource, t: Token, k: nat)
    requires WellFormed(s) && server < |s.clocks| && c in s.clients
    requires cmd.token != t && FreedAt(s, c, r, t, k)
    ensures FreedAt(RunOn(s, server, cmd), c, r, t, k)
  {
    if !HoldsToken(s.keys[k], s.clocks[k].Floor, r, t) {
      TokenNeedsCommand(s.keys[k], s.clocks[k].Floor, cmd, r, t);
    }
  }

  /** Nobody but its drawer can put a token back. */
  lemma ForeignKeepsFreed(s: State, step: Step, c: Client, r: Resource, t: Token, k: nat)
    requires Inv(s) && c in s.clients && Enabled(s, step) && Foreign(step, c)
    requires Drew(s, c, t) && FreedAt(s, c, r, t, k)
    ensures WellFormed(s) && c in After(s, step).clients && FreedAt(After(s, step), c, r, t, k)
  {
    if step.Act? {
      hide Execute;
      var d := step.client;
      var p := s.clients[d].phase;
      assert ClientOk(s, d);
      match step.action
      case Ask(outcome) => RunKeepsFreed(s, p.next, Request(p.call, s.clients[d].continued), c, r, t, k);
      case AskDelete(outcome) => RunKeepsFreed(s, p.next, Delete(p.resource, p.token), c, r, t, k);
      case RunLate(server) =>
        var cmd := s.clients[d].links[server].command;
        assert OwnTokens(s, d, cmd);
        if d != c {
          RunKeepsFreed(s, server, cmd, c, r, t, k);
        }
      case _ =>
    } else {
      assert k < |s.clocks| ==> s.clocks[k] <= step.clocks[k];
    }
  }

  lemma ForeignStep(s: State, step: Step, c: Client)
    requires Inv(s) && c in s.clients && Enabled(s, step) && Foreign(step, c)
    ensures Undisturbed(s, After(s, step), c)
  {
    InvWellFormed(s);
    SamePlace(s, step, c);
    hide Inv, After, Enabled;
    forall r, t, k: nat | Drew(s, c, t) && FreedAt(s, c, r, t, k)
      ensures FreedAt(After(s, step), c, r, t, k)
    {
      ForeignKeepsFreed(s, step, c, r, t, k);
    }
  }

  lemma SamePlace(s: State, step: Step, c: Client)
    requires WellFormed(s) && c in s.clients && Enabled(s, step) && Foreign(step, c)
    ensures var s' := After(s, step);
            && c in s'.clients
            && s'.clients[c].phase == s.clients[c].phase && s'.clients[c].continued == s.clients[c].continued
            && |s'.clocks| == |s.clocks| && s.now <= s'.now
            && (forall t :: t in s.issued ==> t in s'.issued && s'.issued[t] == s.issued[t])
  {
    hide Execute;
  }

  lemma InvWellFormed(s: State)
    requires Inv(s)
    ensures WellFormed(s)
  {
  }

  lemma StepInv(s: State, step: Step)
    requires Inv(s) && Enabled(s, step)
    ensures Inv(After(s, step))
  {
    InvWellFormed(s);
    hide Inv, Acted;
    match step
    case Tick(_, _) => TickInv(s, step);
    case Act(c, action) => ActKeeps(s, c, action);
  }

  lemma {:induction false} RunsSnoc(s: State, steps: seq<Step>, step: Step)
    requires Runs(s, steps) && WellFormed(Final(s, steps)) && Enabled(Final(s, steps), step)
    ensures Runs(s, steps + [step]) && Final(s, steps + [step]) == After(Final(s, steps), step)
    decreases |steps|
  {
    hide After, Enabled;
    if steps == [] {
      assert steps + [step] == [step];
      RunsCons(s, step, []);
    } else {
      RunsSnoc(After(s, steps[0]), steps[1..], step);
      assert steps + [step] == [steps[0]] + (steps[1..] + [step]);
      RunsCons(s, steps[0], steps[1..] + [step]);
    }
  }

  /** The caller's handle on a lock. */
  class CLock {
    var validityTime: int
    var resource: Resource
    var val: Token

    constructor ()
    {
      validityTime, resource, val := 0, "", "";
    }
  }

  /** The claim of a successful call has more than half of the servers behind it and is good for the validity reported. */
  ghost predicate Holds(s: State, c: Client, r: Resource, t: Token, validity: int) {
    exists g ::
      && g in s.claims && g.client == c && g.resource == r && g.token == t
      && (|s.clocks| > 0 ==> 2 * |g.servers| > |s.clocks|)
      && validity == g.until - Seconds(s.now) && validity > 0
  }

  /** In this state an attempt of the call has asked all servers; more than half granted it, and there is time left. */
  predicate Passes(s: State, c: Client, call: Call) {
    && Judged(s, c, call)
    && var p := s.clients[c].phase;
       && (|s.clocks| > 0 ==> 2 * |p.granted| > |s.clocks|)
       && p.call.ttl - (Seconds(s.now) - p.start) - DriftOf(p.call.ttl) > 0
  }

  /** An attempt of the call, whatever its retry counter is by then, has asked all servers. */
  predicate Judged(s: State, c: Client, call: Call) {
    && c in s.clients && s.clients[c].phase.Acquiring? && s.clients[c].phase.next == |s.clocks|
    && s.clients[c].phase.call == call.(left := s.clients[c].phase.call.left)
  }

  lemma CounterIgnored(s: State, c: Client, call: Call, first: Call)
    requires call == first.(left := call.left)
    ensures Judged(s, c, call) <==> Judged(s, c, first)
    ensures Passes(s, c, call) <==> Passes(s, c, first)
  {
  }

  class CRedLock {
    const world: World
    const id: Client
    var retryCount: int
    var quorum: int
    var continued: Option<Token>

    ghost predicate Ready()
      reads this, world
    {
      && world.Valid() && id in world.s.clients
      && quorum == Quorum(|world.s.clocks|)
      && continued == world.s.clients[id].continued
    }

    ghost function Phase(): Phase
      reads this, world
      requires id in world.s.clients
    {
      world.s.clients[id].phase
    }

    /** The run went on from `past`, with this many more attempts of this client. */
    ghost predicate Kept(first: State, past: seq<Step>, attempts: nat)
      reads this, world
    {
      world.first == first && past <= world.past && Made(world.past, id) == Made(past, id) + attempts
    }

    constructor (world: World, id: Client, retryCount: int)
      requires world.Valid() && id in world.s.clients && world.s.clients[id] == ClientState(Idle, None, world.s.clients[id].links)
      ensures Ready() && Phase().Idle? && this.world == world && this.id == id
    {
      this.world, this.id, this.retryCount := world, id, retryCount;
      quorum, continued := Quorum(|world.s.clocks|), None;
    }

    /** One pass over the servers; `n` counts the grants. */
    method AskAll(call: Call, start: int) returns (n: nat)
      requires Ready() && Phase() == Acquiring(call, start, {}, 0)
      modifies world
      ensures Ready() && Kept(old(world.first), old(world.past), 0)
      ensures Phase().Acquiring? && Phase().call == call && Phase().start == start
      ensures Phase().next == |world.s.clocks| && |Phase().granted| == n
    {
      n := 0;
      var i := 0;
      while i < |world.s.clocks|
        invariant Ready() && Kept(old(world.first), old(world.past), 0)
        invariant 0 <= i <= |world.s.clocks| && Phase().Acquiring? && Phase().call == call && Phase().start == start
        invariant Phase().next == i && |Phase().granted| == n
        decreases |world.s.clocks| - i
      {
        var ok, _, _ := AskOne(i, call);
        if ok {
          n := n + 1;
        }
        i := i + 1;
      }
    }

    /** `at` is the state in which the server was asked. */
    method AskOne(i: nat, call: Call) returns (ok: bool, ghost at: State, ghost outcome: Outcome)
      requires Ready() && Phase().Acquiring? && Phase().call == call && Phase().next == i < |world.s.clocks|
      modifies world
      ensures Ready() && Kept(old(world.first), old(world.past), 0) && |world.s.clocks| == old(|world.s.clocks|)
      ensures Phase().Acquiring? && Phase().call == call && Phase().start == old(Phase().start) && Phase().next == i + 1
      ensures |Phase().granted| == old(|Phase().granted|) + if ok then 1 else 0
      ensures WellFormed(at) && Undisturbed(old(world.s), at, id)
      ensures Enabled(at, Act(id, Ask(outcome))) && world.s == After(at, Act(id, Ask(outcome)))
      ensures ok <==> GrantsTo(at, i, id, call, outcome)
    {
      var happened := world.Others(id);
      at, outcome := world.s, happened;
      InvWellFormed(world.s);
      ok := Granted(world.s, id, i, Request(call, continued), happened);
      GrantedIff(world.s, id, i, call, happened);
      AskEffect(world.s, id, happened);
      world.Do(Act(id, Ask(happened)));
    }

    /** `Unlock` over the server list, and the way back into the retry loop when it ends an attempt. */
    method DeleteAll(r: Resource, t: Token, back: Option<Call>)
      requires Ready() && Phase() == Releasing(r, t, 0, back)
      modifies world
      ensures Ready() && Kept(old(world.first), old(world.past), 0) && Phase() == AfterUnlock(back)
      ensures NoClaim(world.s, r, t)
      ensures forall k :: 0 <= k < |world.s.clocks| ==> FreedAt(world.s, id, r, t, k)
      ensures forall u :: u in old(world.s.issued) ==> u in world.s.issued && world.s.issued[u] == old(world.s.issued)[u]
    {
      hide Inv, Runs, Final, After, HoldsToken;
      var i := 0;
      while i < |world.s.clocks|
        invariant Ready() && Kept(old(world.first), old(world.past), 0)
        invariant 0 <= i <= |world.s.clocks| && Phase() == Releasing(r, t, i, back)
        invariant forall k :: 0 <= k < i ==> FreedAt(world.s, id, r, t, k)
        invariant forall u :: u in old(world.s.issued) ==> u in world.s.issued && world.s.issued[u] == old(world.s.issued)[u]
        decreases |world.s.clocks| - i
      {
        DeleteOne(i, r, t, back);
        i := i + 1;
      }
      FinishDelete(r, t, back);
    }

    method FinishDelete(r: Resource, t: Token, back: Option<Call>)
      requires Ready() && Phase() == Releasing(r, t, |world.s.clocks|, back)
      modifies world
      ensures Ready() && Kept(old(world.first), old(world.past), 0) && Phase() == AfterUnlock(back)
      ensures |world.s.clocks| == old(|world.s.clocks|) && NoClaim(world.s, r, t)
      ensures forall k: nat :: old(FreedAt(world.s, id, r, t, k)) ==> FreedAt(world.s, id, r, t, k)
      ensures forall u :: u in old(world.s.issued) ==> u in world.s.issued && world.s.issued[u] == old(world.s.issued)[u]
    {
      hide Inv, Runs, Final, After, HoldsToken;
      ReleasedHasNoClaim(world.s, id);
      var _ := world.Others(id);
      ReleasedHasNoClaim(world.s, id);
      UnlockedEffect(world.s, id);
      world.Do(Act(id, Unlocked));
    }

    method DeleteOne(i: nat, r: Resource, t: Token, back: Option<Call>)
      requires Ready() && Phase() == Releasing(r, t, i, back) && i < |world.s.clocks|
      modifies world
      ensures Ready() && Kept(old(world.first), old(world.past), 0) && |world.s.clocks| == old(|world.s.clocks|)
      ensures Phase() == Releasing(r, t, i + 1, back)
      ensures FreedAt(world.s, id, r, t, i)
      ensures forall k: nat :: k < i && old(FreedAt(world.s, id, r, t, k)) ==> FreedAt(world.s, id, r, t, k)
      ensures forall u :: u in old(world.s.issued) ==> u in world.s.issued && world.s.issued[u] == old(world.s.issued)[u]
    {
      var outcome := world.Others(id);
      InvWellFormed(world.s);
      DeleteEffect(world.s, id, outcome);
      world.Do(Act(id, AskDelete(outcome)));
    }

    method Unlock(lock: CLock)
      requires Ready() && Phase().Idle?
      requires lock.val in world.s.issued && world.s.issued[lock.val] == Draw(id, lock.resource)
      modifies world
      ensures Ready() && Phase().Idle? && Kept(old(world.first), old(world.past), 0)
      ensures NoClaim(world.s, lock.resource, lock.val)
      ensures forall k :: 0 <= k < |world.s.clocks| ==> FreedAt(world.s, id, lock.resource, lock.val, k)
    {
      world.Do(Act(id, Redlock.Unlock(lock.val)));
      DeleteAll(lock.resource, lock.val, None);
    }

    /** One pass of the retry loop. */
    method Attempts(call: Call, lock: CLock) returns (ok: bool, ghost verdict: State)
      requires Ready() && Phase() == Waiting(call)
      modifies this`continued, world, lock`validityTime
      ensures Ready() && Kept(old(world.first), old(world.past), 1)
      ensures Judged(verdict, id, call) && (ok <==> Passes(verdict, id, call))
      ensures continued == if call.extend then Some(call.token) else old(continued)
      ensures ok ==> Phase().Idle? && Holds(world.s, id, call.resource, call.token, lock.validityTime)
      ensures !ok ==> Phase() == AfterUnlock(Some(call)) && NoClaim(world.s, call.resource, call.token)
    {
      hide Inv, Runs, Final, After, Made;
      var _ := world.Others(id);
      var startTime := Seconds(world.s.now);
      AttemptEffect(world.s, id);
      world.Do(Act(id, Attempt));
      var n := AskAll(call, startTime);
      ok, verdict := Settle(call, startTime, n, lock);
    }

    /**
      The verdict, read in the state `verdict`: with a server list that is not empty it is that more than half of
      the servers granted the attempt and that there is time left. `ContinueLock` first records its value as the
      next one to replace.
      */
    method Settle(call: Call, startTime: int, n: nat, lock: CLock) returns (ok: bool, ghost verdict: State)
      requires Ready() && Phase().Acquiring? && Phase().call == call && Phase().start == startTime
      requires Phase().next == |world.s.clocks| && n == |Phase().granted|
      modifies this`continued, world, lock`validityTime
      ensures Ready() && Kept(old(world.first), old(world.past), 0)
      ensures Undisturbed(old(world.s), verdict, id)
      ensures |verdict.clocks| > 0 ==>
                (ok <==> 2 * n > |verdict.clocks|
                         && call.ttl - (Seconds(verdict.now) - startTime) - DriftOf(call.ttl) > 0)
      ensures Judged(verdict, id, call) && (ok <==> Passes(verdict, id, call))
      ensures continued == if call.extend then Some(call.token) else old(continued)
      ensures ok ==> lock.validityTime == call.ttl - (Seconds(verdict.now) - startTime) - DriftOf(call.ttl)
      ensures ok ==> Phase().Idle? && Holds(world.s, id, call.resource, call.token, lock.validityTime)
      ensures !ok ==> Phase() == AfterUnlock(Some(call)) && NoClaim(world.s, call.resource, call.token)
    {
      hide Inv, Runs, Final, After, Made;
      var _ := world.Others(id);
      verdict := world.s;
      if call.extend {
        continued := Some(call.token);
      }
      var validityTime := call.ttl - (Seconds(world.s.now) - startTime) - DriftOf(call.ttl);
      ok := n >= quorum && validityTime > 0;
      SettleEffect(world.s, id);
      if ok {
        lock.validityTime := validityTime;
        world.Do(Act(id, Succeed));
      } else {
        world.Do(Act(id, GiveUp));
        DeleteAll(call.resource, call.token, Some(call));
      }
    }

    /** Enters the retry loop; `ContinueLock` replaces its own new value if it remembers none. */
    method Start(call: Call)
      requires Ready() && Phase().Idle? && call.token !in world.s.issued
      modifies this`continued, world
      ensures Ready() && Phase() == Waiting(call) && Kept(old(world.first), old(world.past), 0)
      ensures continued == if call.extend && old(continued).None? then Some(call.token) else old(continued)
    {
      hide Inv, Runs, Final, After, Enabled, Made;
      if call.extend && continued.None? {
        continued := Some(call.token);
      }
      BeginEffect(world.s, id, call);
      world.Do(Act(id, Begin(call.extend, call.resource, call.token, call.ttl, call.left)));
    }

    /** As many attempts as the counter says, and at least one, until one succeeds. */
    method Loop(first: Call, lock: CLock) returns (ok: bool, ghost verdict: State, ghost made: nat)
      requires Ready() && Phase() == Waiting(first)
      modifies this`continued, world, lock`validityTime
      ensures Ready() && Phase().Idle? && Kept(old(world.first), old(world.past), made)
      ensures if ok then 1 <= made <= AtMost(first.left) else made == AtMost(first.left)
      ensures Judged(verdict, id, first) && (ok <==> Passes(verdict, id, first))
      ensures continued == if first.extend then Some(first.token) else old(continued)
      ensures ok ==> Holds(world.s, id, first.resource, first.token, lock.validityTime)
      ensures !ok ==> NoClaim(world.s, first.resource, first.token)
    {
      hide Made, Passes, Judged, Holds, NoClaim, Inv, Runs, Final, After;
      var call := first;
      ok, verdict := Attempts(call, lock);
      made := 1;
      while !ok && call.left - 1 > 0
        invariant Ready() && Kept(old(world.first), old(world.past), made)
        invariant call == first.(left := call.left)
        invariant 1 <= made && made + AtMost(call.left) == 1 + AtMost(first.left)
        invariant Judged(verdict, id, first) && (ok <==> Passes(verdict, id, first))
        invariant continued == if first.extend then Some(first.token) else old(continued)
        invariant ok ==> Phase().Idle? && Holds(world.s, id, call.resource, call.token, lock.validityTime)
        invariant !ok ==> Phase() == AfterUnlock(Some(call)) && NoClaim(world.s, call.resource, call.token)
        decreases !ok, call.left
      {
        call := call.(left := call.left - 1);
        ok, verdict := Attempts(call, lock);
        made := made + 1;
        CounterIgnored(verdict, id, call, first);
      }
    }

    /**
      `drawn` is the random value drawn; none when the random source fails. The call succeeds exactly if its last
      attempt passes in the state `verdict`, and fails after as many attempts as the retry count says.
      */
    method Lock(resource: Resource, ttl: int, lock: CLock, drawn: Option<Token>)
      returns (ok: bool, ghost verdict: State, ghost made: nat)
      requires Ready() && Phase().Idle?
      requires drawn.Some? ==> drawn.value !in world.s.issued
      modifies this`continued, world, lock
      ensures Ready() && Phase().Idle? && Kept(old(world.first), old(world.past), made)
      ensures drawn.None? ==> !ok && world.s == old(world.s)
      ensures drawn.Some? ==> lock.resource == resource && lock.val == drawn.value
      ensures drawn.Some? ==> Judged(verdict, id, Call(false, resource, drawn.value, ttl, retryCount))
      ensures drawn.Some? ==> (ok <==> Passes(verdict, id, Call(false, resource, drawn.value, ttl, retryCount)))
      ensures drawn.Some? ==> if ok then 1 <= made <= AtMost(retryCount) else made == AtMost(retryCount)
      ensures ok ==> Holds(world.s, id, resource, lock.val, lock.validityTime)
      ensures !ok && drawn.Some? ==> NoClaim(world.s, resource, drawn.value)
      ensures continued == old(continued)
    {
      if drawn.None? {
        return false, world.s, 0;
      }
      lock.resource, lock.val := resource, drawn.value;
      var call := Call(false, resource, drawn.value, ttl, retryCount);
      hide Inv, Runs, Final, After, Enabled, Made, Passes, Judged, Holds, NoClaim;
      Start(call);
      ok, verdict, made := Loop(call, lock);
    }

    /** Replaces this client's earlier value, where a server still holds it, by a new one, which is then remembered. */
    method ContinueLock(resource: Resource, ttl: int, lock: CLock, drawn: Option<Token>)
      returns (ok: bool, ghost verdict: State, ghost made: nat)
      requires Ready() && Phase().Idle?
      requires drawn.Some? ==> drawn.value !in world.s.issued
      modifies this`continued, world, lock
      ensures Ready() && Phase().Idle? && Kept(old(world.first), old(world.past), made)
      ensures drawn.None? ==> !ok && world.s == old(world.s)
      ensures drawn.Some? ==> lock.resource == resource && lock.val == drawn.value
      ensures drawn.Some? ==> Judged(verdict, id, Call(true, resource, drawn.value, ttl, retryCount))
      ensures drawn.Some? ==> (ok <==> Passes(verdict, id, Call(true, resource, drawn.value, ttl, retryCount)))
      ensures drawn.Some? ==> if ok then 1 <= made <= AtMost(retryCount) else made == AtMost(retryCount)
      ensures ok ==> Holds(world.s, id, resource, lock.val, lock.validityTime)
      ensures !ok && drawn.Some? ==> NoClaim(world.s, resource, drawn.value)
      ensures continued == if drawn.Some? then drawn else old(continued)
    {
      if drawn.None? {
        return false, world.s, 0;
      }
      lock.resource, lock.val := resource, drawn.value;
      var call := Call(true, resource, drawn.value, ttl, retryCount);
      hide Inv, Runs, Final, After, Enabled, Made, Passes, Judged, Holds, NoClaim;
      Start(call);
      ok, verdict, made := Loop(call, lock);
    }
  }

  /** The loop runs once before it looks at the counter. */
  function AtMost(retries: int): nat {
    if retries < 1 then 1 else retries
  }

  lemma AskEffect(s: State, c: Client, outcome: Outcome)
    requires Inv(s) && c in s.clients && s.clients[c].phase.Acquiring? && s.clients[c].phase.next < |s.clocks|
    ensures var p := s.clients[c].phase;
            var s' := After(s, Act(c, Ask(outcome)));
            && |s'.clocks| == |s.clocks| && c in s'.clients && s'.clients[c].continued == s.clients[c].continued
            && var q := s'.clients[c].phase;
               && q.Acquiring? && q.call == p.call && q.start == p.start && q.next == p.next + 1
               && |q.granted| == |p.granted| +
                  if Granted(s, c, p.next, Request(p.call, s.clients[c].continued), outcome) then 1 else 0
  {
    hide Execute;
    assert ClientOk(s, c);
  }

  lemma DeleteEffect(s: State, c: Client, outcome: Outcome)
    requires Inv(s) && c in s.clients && s.clients[c].phase.Releasing? && s.clients[c].phase.next < |s.clocks|
    ensures Drew(s, c, s.clients[c].phase.token)
    ensures var p := s.clients[c].phase;
            var s' := After(s, Act(c, AskDelete(outcome)));
            && |s'.clocks| == |s.clocks| && c in s'.clients && s'.clients[c].continued == s.clients[c].continued
            && s'.issued == s.issued
            && s'.clients[c].phase == Releasing(p.resource, p.token, p.next + 1, p.back)
            && FreedAt(s', c, p.resource, p.token, p.next)
            && (forall k: nat :: k < p.next && FreedAt(s, c, p.resource, p.token, k) ==> FreedAt(s', c, p.resource, p.token, k))
  {
    var p := s.clients[c].phase;
    assert ClientOk(s, c);
    AcceptedExactly(s.keys[p.next], s.clocks[p.next].Floor, Delete(p.resource, p.token));
    hide Execute;
  }

  lemma UnlockedEffect(s: State, c: Client)
    requires WellFormed(s) && c in s.clients && s.clients[c].phase.Releasing? && s.clients[c].phase.next == |s.clocks|
    ensures var s' := After(s, Act(c, Unlocked));
            s' == SetPhase(s, c, AfterUnlock(s.clients[c].phase.back))
  {
  }

  lemma ReleasedHasNoClaim(s: State, c: Client)
    requires Inv(s) && c in s.clients && s.clients[c].phase.Releasing?
    ensures WellFormed(s) && Drew(s, c, s.clients[c].phase.token)
    ensures NoClaim(s, s.clients[c].phase.resource, s.clients[c].phase.token)
  {
    assert ClientOk(s, c);
  }

  lemma BeginEffect(s: State, c: Client, call: Call)
    requires Inv(s) && c in s.clients && s.clients[c].phase.Idle? && call.token !in s.issued
    ensures WellFormed(s)
    ensures var begin := Act(c, Begin(call.extend, call.resource, call.token, call.ttl, call.left));
            && Enabled(s, begin)
            && var s' := After(s, begin);
               && c in s'.clients && s'.clients[c].phase == Waiting(call) && |s'.clocks| == |s.clocks|
               && s'.clients[c].continued ==
                  if call.extend && s.clients[c].continued.None? then Some(call.token) else s.clients[c].continued
  {
  }

  lemma AttemptEffect(s: State, c: Client)
    requires Inv(s) && c in s.clients && s.clients[c].phase.Waiting?
    ensures Enabled(s, Act(c, Attempt))
    ensures WellFormed(s) && After(s, Act(c, Attempt)) == SetPhase(s, c, Acquiring(s.clients[c].phase.call, Seconds(s.now), {}, 0))
  {
  }

  /** At the end of an attempt exactly one of the two verdicts is possible. */
  lemma SettleEffect(s: State, c: Client)
    requires Inv(s) && c in s.clients && s.clients[c].phase.Acquiring? && s.clients[c].phase.next == |s.clocks|
    ensures WellFormed(s)
    ensures var p := s.clients[c].phase;
            var continued := if p.call.extend then Some(p.call.token) else s.clients[c].continued;
            if Succeeds(s, p) then
              var s' := After(s, Act(c, Succeed));
              && Enabled(s, Act(c, Succeed))
              && s' == Settled(s, c, Idle).(claims := s'.claims)
              && s'.clients[c].continued == continued && s'.clients[c].phase.Idle?
              && Holds(s', c, p.call.resource, p.call.token, Validity(s.now, p.start, p.call.ttl))
            else
              var s' := After(s, Act(c, GiveUp));
              && Enabled(s, Act(c, GiveUp))
              && s' == Settled(s, c, Releasing(p.call.resource, p.call.token, 0, Some(p.call)))
              && s'.clients[c].continued == continued
  {
    var p := s.clients[c].phase;
    if Succeeds(s, p) {
      assert ClaimOf(c, p) in After(s, Act(c, Succeed)).claims;
    }
  }
}
