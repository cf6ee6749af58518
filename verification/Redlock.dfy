/**
  Redlock as a state machine: clients that run the retry loops of `CRedLock`, servers that execute
  one command at a time, and time. One step is one command, one clock reading or one passage of time,
  so that a run is an interleaving of the clients' calls.

  Times are in milliseconds. `now` is true time, which the clients read in whole seconds; every server
  has a clock of its own, in any relation to `now`, that runs at most one per cent fast.
  */
module Redlock {

  type Resource = string
  type Token = string
  type Client = nat

  datatype Option<T> = None | Some(value: T)

  // ---------- the servers ----------

  datatype Key = Key(token: Token, expiry: int)
  type Keys = map<Resource, Key>

  datatype Command =
    | SetNx(resource: Resource, token: Token, ttl: int)
    | Extend(resource: Resource, prior: Token, token: Token, ttl: int)
    | Delete(resource: Resource, token: Token)

  datatype Answer = Answer(keys: Keys, ok: bool)

  predicate Live(keys: Keys, ms: int, r: Resource) {
    r in keys && ms < keys[r].expiry
  }

  predicate HoldsToken(keys: Keys, ms: int, r: Resource, t: Token) {
    Live(keys, ms, r) && keys[r].token == t
  }

  /** `set r t px ttl nx`; a time to live that is not positive is an error reply. */
  function SetIfAbsent(keys: Keys, ms: int, r: Resource, t: Token, ttl: int): Answer {
    if ttl <= 0 || Live(keys, ms, r) then Answer(keys, false) else Answer(keys[r := Key(t, ms + ttl)], true)
  }

  function DeleteIfEqual(keys: Keys, ms: int, r: Resource, t: Token): Keys {
    if HoldsToken(keys, ms, r, t) then keys - {r} else keys
  }

  function Execute(keys: Keys, ms: int, cmd: Command): Answer {
    match cmd
    case SetNx(r, t, ttl) => SetIfAbsent(keys, ms, r, t, ttl)
    case Extend(r, prior, t, ttl) => SetIfAbsent(DeleteIfEqual(keys, ms, r, prior), ms, r, t, ttl)
    case Delete(r, t) => Answer(DeleteIfEqual(keys, ms, r, t), false)
  }

  function RemovedToken(cmd: Command): Token {
    if cmd.Extend? then cmd.prior else cmd.token
  }

  /** The commands that can take token `t` away from resource `r`. */
  predicate Removes(cmd: Command, r: Resource, t: Token) {
    cmd.resource == r && !cmd.SetNx? && RemovedToken(cmd) == t
  }

  /** A live key is changed by no command except one that names its own token. */
  lemma OnlyTheTokenOpens(keys: Keys, ms: int, cmd: Command, r: Resource)
    requires Live(keys, ms, r)
    ensures !Removes(cmd, r, keys[r].token) ==>
              r in Execute(keys, ms, cmd).keys && Execute(keys, ms, cmd).keys[r] == keys[r]
    ensures Execute(keys, ms, cmd).ok && cmd.resource == r ==> cmd.Extend? && cmd.prior == keys[r].token
  {
  }

  /** Exactly when a command is answered OK, and that it touches no other resource. */
  lemma AcceptedExactly(keys: Keys, ms: int, cmd: Command)
    ensures Execute(keys, ms, cmd).ok <==>
              && !cmd.Delete? && cmd.ttl > 0
              && (Live(keys, ms, cmd.resource) ==> cmd.Extend? && keys[cmd.resource].token == cmd.prior)
    ensures forall r :: r != cmd.resource ==>
                          (r in Execute(keys, ms, cmd).keys <==> r in keys) &&
                          (r in keys ==> Execute(keys, ms, cmd).keys[r] == keys[r])
    ensures cmd.Delete? ==> !HoldsToken(Execute(keys, ms, cmd).keys, ms, cmd.resource, cmd.token)
  {
  }

  /** A token comes to a key only by a command that carries it. */
  lemma TokenNeedsCommand(keys: Keys, ms: int, cmd: Command, r: Resource, t: Token)
    requires !HoldsToken(keys, ms, r, t) && cmd.token != t
    ensures !HoldsToken(Execute(keys, ms, cmd).keys, ms, r, t)
  {
  }

  /** An accepted set leaves the sender's token on the key for its time to live. */
  lemma AcceptedHolds(keys: Keys, ms: int, cmd: Command)
    requires Execute(keys, ms, cmd).ok
    ensures !cmd.Delete? && cmd.ttl > 0
    ensures cmd.resource in Execute(keys, ms, cmd).keys
    ensures Execute(keys, ms, cmd).keys[cmd.resource] == Key(cmd.token, ms + cmd.ttl)
  {
  }

  // ---------- the clients ----------

  /** One call of `Lock` (`extend` false) or `ContinueLock`; `left` is the retry counter. */
  datatype Call = Call(extend: bool, resource: Resource, token: Token, ttl: int, left: int)

  /** What a client is doing: it asks server `next`, having been granted by the servers `granted`. */
  datatype Phase =
    | Idle
    | Waiting(call: Call)
    | Acquiring(call: Call, start: int, granted: set<nat>, next: nat)
    | Releasing(resource: Resource, token: Token, next: nat, back: Option<Call>)

  /** A connection dies with its first error; the command that met it may still reach the server later. */
  datatype Link = Up | Down | Late(command: Command)

  /** `continued` is the value of `m_continueLock`. */
  datatype ClientState = ClientState(phase: Phase, continued: Option<Token>, links: seq<Link>)

  /** What became of a command: answered, or the connection broke before, after or around its execution. */
  datatype Outcome = Replied | NotRun | ReplyLost | Delayed

  /** A claim of a resource: the servers that granted it and the time until which it is good. */
  datatype Claim = Claim(client: Client, resource: Resource, token: Token, servers: set<nat>, until: int)

  datatype Draw = Draw(client: Client, resource: Resource)

  datatype State = State(
    now: real,
    clocks: seq<real>,
    keys: seq<Keys>,
    clients: map<Client, ClientState>,
    issued: map<Token, Draw>,
    claims: set<Claim>)

  /** `(int)time(NULL) * 1000` */
  function Seconds(now: real): int {
    (now / 1000.0).Floor * 1000
  }

  function Drift(ttl: int): int
    requires ttl >= 0
  {
    ttl / 100 + 2
  }

  /** The conversion to an integer truncates the sum toward zero, which matters only for a negative time to live. */
  function DriftOf(ttl: int): int {
    if ttl >= -200 then (ttl + 200) / 100 else -((-ttl - 200) / 100)
  }

  /** Without any server the quorum keeps its initial value. */
  function Quorum(n: nat): nat {
    if n == 0 then 0 else n / 2 + 1
  }

  function Validity(now: real, start: int, ttl: int): int {
    ttl - (Seconds(now) - start) - DriftOf(ttl)
  }

  function Request(call: Call, continued: Option<Token>): Command {
    if call.extend && continued.Some?
    then Extend(call.resource, continued.value, call.token, call.ttl)
    else SetNx(call.resource, call.token, call.ttl)
  }

  // ---------- steps ----------

  datatype Action =
    | Begin(extend: bool, resource: Resource, token: Token, ttl: int, retries: int)
    | Attempt
    | Ask(outcome: Outcome)
    | Succeed
    | GiveUp
    | Unlock(token: Token)
    | AskDelete(outcome: Outcome)
    | Unlocked
    | RunLate(server: nat)

  datatype Step = Tick(elapsed: real, clocks: seq<real>) | Act(client: Client, action: Action)

  predicate Succeeds(s: State, p: Phase)
    requires p.Acquiring?
  {
    |p.granted| >= Quorum(|s.clocks|) && Validity(s.now, p.start, p.call.ttl) > 0
  }

  predicate ClocksAdvance(before: seq<real>, after: seq<real>, elapsed: real) {
    && |after| == |before|
    && forall k :: 0 <= k < |before| ==> before[k] <= after[k] <= before[k] + 1.01 * elapsed
  }

  predicate CanAct(s: State, c: Client, action: Action)
    requires c in s.clients
  {
    var me := s.clients[c];
    var p := me.phase;
    match action
    case Begin(_, _, t, _, _) => p.Idle? && t !in s.issued
    case Attempt => p.Waiting?
    case Ask(_) => p.Acquiring? && p.next < |s.clocks|
    case Succeed => p.Acquiring? && p.next == |s.clocks| && Succeeds(s, p)
    case GiveUp => p.Acquiring? && p.next == |s.clocks| && !Succeeds(s, p)
    case Unlock(t) => p.Idle? && t in s.issued && s.issued[t].client == c
    case AskDelete(_) => p.Releasing? && p.next < |s.clocks|
    case Unlocked => p.Releasing? && p.next == |s.clocks|
    case RunLate(server) => server < |s.clocks| && server < |me.links| && me.links[server].Late?
  }

  predicate Enabled(s: State, step: Step) {
    match step
    case Tick(d, clocks) => d >= 0.0 && ClocksAdvance(s.clocks, clocks, d)
    case Act(c, action) => c in s.clients && CanAct(s, c, action)
  }

  /** The server's part of a command. */
  function RunOn(s: State, server: nat, cmd: Command): State
    requires server < |s.keys| && server < |s.clocks|
  {
    s.(keys := s.keys[server := Execute(s.keys[server], s.clocks[server].Floor, cmd).keys])
  }

  function Reached(link: Link, outcome: Outcome): bool {
    link.Up? && (outcome.Replied? || outcome.ReplyLost?)
  }

  function NextLink(link: Link, outcome: Outcome, cmd: Command): Link {
    if !link.Up? || outcome.Replied? then link
    else if outcome.Delayed? then Late(cmd) else Down
  }

  /** Sends `cmd` over the connection of `c` to `server`; over a broken connection nothing is sent. */
  function SendTo(s: State, c: Client, server: nat, cmd: Command, outcome: Outcome): State
    requires WellFormed(s) && c in s.clients && server < |s.clocks|
  {
    var me := s.clients[c];
    var link := me.links[server];
    var ran := if Reached(link, outcome) then RunOn(s, server, cmd) else s;
    ran.(clients := s.clients[c := me.(links := me.links[server := NextLink(link, outcome, cmd)])])
  }

  predicate Granted(s: State, c: Client, server: nat, cmd: Command, outcome: Outcome)
    requires WellFormed(s) && c in s.clients && server < |s.clocks|
  {
    && s.clients[c].links[server].Up?
    && outcome.Replied?
    && Execute(s.keys[server], s.clocks[server].Floor, cmd).ok
  }

  predicate WellFormed(s: State) {
    && |s.keys| == |s.clocks|
    && forall c :: c in s.clients ==> |s.clients[c].links| == |s.clocks|
  }

  function SetPhase(s: State, c: Client, p: Phase): State
    requires c in s.clients
  {
    s.(clients := s.clients[c := s.clients[c].(phase := p)])
  }

  function ClaimOf(c: Client, p: Phase): Claim
    requires p.Acquiring?
  {
    Claim(c, p.call.resource, p.call.token, p.granted, p.start + p.call.ttl - DriftOf(p.call.ttl))
  }

  /** The claims that outlive the release or replacement of token `t` on resource `r`. */
  function Without(claims: set<Claim>, r: Resource, t: Token): set<Claim> {
    set g | g in claims && !(g.resource == r && g.token == t)
  }

  /** `ContinueLock` first makes its own new value the one to replace if there is none yet. */
  function Starting(s: State, c: Client, call: Call): State
    requires c in s.clients
  {
    var me := s.clients[c];
    var continued := if call.extend && me.continued.None? then Some(call.token) else me.continued;
    s.(issued := s.issued[call.token := Draw(c, call.resource)],
       clients := s.clients[c := me.(phase := Waiting(call), continued := continued)],
       claims := if call.extend && continued.Some? then Without(s.claims, call.resource, continued.value) else s.claims)
  }

  function Asked(s: State, c: Client, outcome: Outcome): State
    requires WellFormed(s) && c in s.clients && s.clients[c].phase.Acquiring?
    requires s.clients[c].phase.next < |s.clocks|
  {
    var me := s.clients[c];
    var p := me.phase;
    var cmd := Request(p.call, me.continued);
    var granted := if Granted(s, c, p.next, cmd, outcome) then p.granted + {p.next} else p.granted;
    SetPhase(SendTo(s, c, p.next, cmd, outcome), c, Acquiring(p.call, p.start, granted, p.next + 1))
  }

  /** The end of an attempt: `ContinueLock` records its value as the one to replace next time. */
  function Settled(s: State, c: Client, next: Phase): State
    requires c in s.clients && s.clients[c].phase.Acquiring?
  {
    var me := s.clients[c];
    var call := me.phase.call;
    s.(clients := s.clients[c := me.(phase := next, continued := if call.extend then Some(call.token) else me.continued)])
  }

  function Acted(s: State, c: Client, action: Action): State
    requires WellFormed(s) && c in s.clients && CanAct(s, c, action)
  {
    var p := s.clients[c].phase;
    match action
    case Begin(extend, r, t, ttl, retries) => Starting(s, c, Call(extend, r, t, ttl, retries))
    case Attempt => SetPhase(s, c, Acquiring(p.call, Seconds(s.now), {}, 0))
    case Ask(outcome) => Asked(s, c, outcome)
    case Succeed => Settled(s, c, Idle).(claims := s.claims + {ClaimOf(c, p)})
    case GiveUp => Settled(s, c, Releasing(p.call.resource, p.call.token, 0, Some(p.call)))
    case Unlock(t) =>
      var r := s.issued[t].resource;
      SetPhase(s, c, Releasing(r, t, 0, None)).(claims := Without(s.claims, r, t))
    case AskDelete(outcome) =>
      var sent := SendTo(s, c, p.next, Delete(p.resource, p.token), outcome);
      SetPhase(sent, c, Releasing(p.resource, p.token, p.next + 1, p.back))
    case Unlocked => SetPhase(s, c, AfterUnlock(p.back))
    case RunLate(server) =>
      var me := s.clients[c];
      RunOn(s, server, me.links[server].command).(clients := s.clients[c := me.(links := me.links[server := Down])])
  }

  function After(s: State, step: Step): State
    requires WellFormed(s) && Enabled(s, step)
  {
    match step
    case Tick(d, clocks) => s.(now := s.now + d, clocks := clocks)
    case Act(c, action) => Acted(s, c, action)
  }

  /** After the unlock of a failed attempt the loop counts down and either tries again or returns. */
  function AfterUnlock(back: Option<Call>): Phase {
    if back.Some? && back.value.left - 1 > 0 then Waiting(back.value.(left := back.value.left - 1)) else Idle
  }

  // ---------- the invariant ----------

  predicate Drew(s: State, c: Client, t: Token) {
    t in s.issued && s.issued[t].client == c
  }

  /** A command of client `c` names only tokens that `c` drew. */
  predicate OwnTokens(s: State, c: Client, cmd: Command) {
    Drew(s, c, cmd.token) && (cmd.Extend? ==> Drew(s, c, cmd.prior))
  }

  /** Each granting server holds the claim's token until the claim's time, however fast its clock runs. */
  predicate ServerKeeps(s: State, g: Claim, server: nat) {
    && server < |s.clocks| && server < |s.keys|
    && (s.now < g.until as real ==>
          && g.resource in s.keys[server]
          && s.keys[server][g.resource].token == g.token
          && s.keys[server][g.resource].expiry as real >= s.clocks[server] + 1.01 * (g.until as real - s.now))
  }

  predicate NoLateRemoval(s: State, g: Claim, server: nat)
    requires g.client in s.clients
  {
    var links := s.clients[g.client].links;
    server < |links| && !(links[server].Late? && Removes(links[server].command, g.resource, g.token))
  }

  /** What holds of every claim, and of an attempt as the claim it may become. */
  predicate Backed(s: State, g: Claim) {
    && g.client in s.clients
    && g.token in s.issued && s.issued[g.token] == Draw(g.client, g.resource)
    && forall k :: k in g.servers ==> ServerKeeps(s, g, k) && NoLateRemoval(s, g, k)
  }

  predicate NoClaim(s: State, r: Resource, t: Token) {
    forall g :: g in s.claims ==> !(g.resource == r && g.token == t)
  }

  predicate CallOk(s: State, c: Client, call: Call)
    requires c in s.clients
  {
    && call.token in s.issued && s.issued[call.token] == Draw(c, call.resource)
    && NoClaim(s, call.resource, call.token)
    && (call.extend ==>
          s.clients[c].continued.Some? && NoClaim(s, call.resource, s.clients[c].continued.value))
  }

  predicate PhaseOk(s: State, c: Client)
    requires c in s.clients
  {
    match s.clients[c].phase
    case Idle => true
    case Waiting(call) => CallOk(s, c, call)
    case Acquiring(call, start, granted, next) =>
      && CallOk(s, c, call)
      && start as real <= s.now
      && next <= |s.clocks|
      && (forall k :: k in granted ==> k < next)
      && Backed(s, ClaimOf(c, s.clients[c].phase))
    case Releasing(r, t, next, back) =>
      && t in s.issued && s.issued[t] == Draw(c, r)
      && NoClaim(s, r, t)
      && next <= |s.clocks|
      && (back.Some? ==> CallOk(s, c, back.value))
  }

  predicate ClientOk(s: State, c: Client)
    requires c in s.clients
  {
    && PhaseOk(s, c)
    && (s.clients[c].continued.Some? ==>
          s.clients[c].continued.value in s.issued && s.issued[s.clients[c].continued.value].client == c)
    && (forall k :: 0 <= k < |s.clients[c].links| && s.clients[c].links[k].Late? ==>
          OwnTokens(s, c, s.clients[c].links[k].command))
  }

  predicate ClaimOk(s: State, g: Claim) {
    && Backed(s, g)
    && |g.servers| >= Quorum(|s.clocks|)
  }

  ghost predicate Inv(s: State) {
    && WellFormed(s)
    && (forall c :: c in s.clients ==> ClientOk(s, c))
    && (forall g :: g in s.claims ==> ClaimOk(s, g))
    && (forall g, h :: g in s.claims && h in s.claims && g.token == h.token ==> g == h)
  }

  // ---------- what each step keeps ----------

  /** A step of the clients in `moved` as the other clients see it. */
  ghost predicate Frame(s: State, s': State, moved: set<Client>) {
    && WellFormed(s')
    && |s'.clocks| == |s.clocks|
    && s'.clients.Keys == s.clients.Keys
    && s.now <= s'.now
    && (forall t :: t in s.issued ==> t in s'.issued && s'.issued[t] == s.issued[t])
    && (forall c :: c in s.clients && c !in moved ==> s'.clients[c] == s.clients[c])
    && (forall g :: g in s'.claims && g !in s.claims ==>
          g.client in moved && g.token in s'.issued && s'.issued[g.token].client == g.client)
    && (forall g: Claim :: g.client !in moved && Backed(s, g) ==> Backed(s', g))
  }

  lemma OtherKept(s: State, s': State, moved: set<Client>, c: Client)
    requires Frame(s, s', moved) && c in s.clients && c !in moved
    requires ClientOk(s, c)
    ensures ClientOk(s', c)
  {
    hide Backed;
    var p := s.clients[c].phase;
    if p.Acquiring? {
      assert Backed(s, ClaimOf(c, p));
    }
  }

  /** A passage of time: a clock that gains at most one per cent cannot overtake the keys of a claim. */
  lemma TickKeeps(s: State, step: Step, g: Claim)
    requires WellFormed(s) && step.Tick? && Enabled(s, step)
    requires Backed(s, g)
    ensures Backed(After(s, step), g)
  {
    var s' := After(s, step);
    forall k | k in g.servers
      ensures ServerKeeps(s', g, k) && NoLateRemoval(s', g, k)
    {
      assert ServerKeeps(s, g, k) && NoLateRemoval(s, g, k);
      assert s.clocks[k] <= s'.clocks[k] <= s.clocks[k] + 1.01 * step.elapsed;
    }
  }

  /** A command leaves a claim alone that has no server here or whose token it does not name. */
  predicate Spares(server: nat, cmd: Command, g: Claim) {
    !(server in g.servers && Removes(cmd, g.resource, g.token))
  }

  lemma OthersSpared(s: State, c: Client, server: nat, cmd: Command, g: Claim)
    requires OwnTokens(s, c, cmd) && Backed(s, g) && g.client != c
    ensures Spares(server, cmd, g)
  {
  }

  lemma RunKeeps(s: State, server: nat, cmd: Command, g: Claim, k: nat)
    requires |s.keys| == |s.clocks| && server < |s.clocks|
    requires k in g.servers && Spares(server, cmd, g)
    requires ServerKeeps(s, g, k)
    ensures ServerKeeps(RunOn(s, server, cmd), g, k)
  {
    var s' := RunOn(s, server, cmd);
    if k == server && s.now < g.until as real {
      assert Live(s.keys[k], s.clocks[k].Floor, g.resource);
      OnlyTheTokenOpens(s.keys[k], s.clocks[k].Floor, cmd, g.resource);
    }
  }

  lemma SendKeeps(s: State, c: Client, server: nat, cmd: Command, outcome: Outcome, g: Claim)
    requires WellFormed(s) && c in s.clients && server < |s.clocks|
    requires Backed(s, g) && Spares(server, cmd, g)
    ensures Backed(SendTo(s, c, server, cmd, outcome), g)
  {
    hide Execute;
    var s' := SendTo(s, c, server, cmd, outcome);
    forall k | k in g.servers
      ensures ServerKeeps(s', g, k) && NoLateRemoval(s', g, k)
    {
      assert ServerKeeps(s, g, k) && NoLateRemoval(s, g, k);
      RunKeeps(s, server, cmd, g, k);
      assert ServerKeeps(RunOn(s, server, cmd), g, k);
    }
  }

  /** The acting client's own part of the invariant. */
  ghost predicate Lands(s: State, s': State, c: Client) {
    && c in s.clients && c in s'.clients
    && ClientOk(s', c)
    && (forall g :: g in s'.claims && g.client == c ==> ClaimOk(s', g))
    && (forall g, h :: g in s'.claims && h in s'.claims && g.token == h.token ==> g == h)
  }

  lemma StepKeeps(s: State, s': State, c: Client)
    requires Inv(s) && Frame(s, s', {c}) && Lands(s, s', c)
    ensures Inv(s')
  {
    hide Backed, ClientOk;
    forall d | d in s'.clients
      ensures ClientOk(s', d)
    {
      if d != c {
        OtherKept(s, s', {c}, d);
      }
    }
  }

  /** A step that touches neither a server nor a connection. */
  ghost predicate Quiet(s: State, s': State) {
    && s'.now == s.now && s'.clocks == s.clocks && s'.keys == s.keys
    && s'.clients.Keys == s.clients.Keys
    && (forall c :: c in s.clients ==> s'.clients[c].links == s.clients[c].links)
    && (forall t :: t in s.issued ==> t in s'.issued && s'.issued[t] == s.issued[t])
  }

  lemma QuietKeeps(s: State, s': State, g: Claim)
    requires Quiet(s, s') && Backed(s, g)
    ensures Backed(s', g)
  {
    forall k | k in g.servers
      ensures ServerKeeps(s', g, k) && NoLateRemoval(s', g, k)
    {
      assert ServerKeeps(s, g, k) && NoLateRemoval(s, g, k);
    }
  }

  lemma QuietFrame(s: State, s': State, c: Client)
    requires Inv(s) && Quiet(s, s')
    requires forall d :: d in s.clients && d != c ==> s'.clients[d] == s.clients[d]
    requires forall g :: g in s'.claims && g !in s.claims ==>
                           g.client == c && g.token in s'.issued && s'.issued[g.token].client == c
    ensures Frame(s, s', {c})
    ensures forall g :: g in s.claims ==> ClaimOk(s', g)
  {
    hide Backed, ClientOk;
    forall g: Claim | Backed(s, g)
      ensures Backed(s', g)
    {
      QuietKeeps(s, s', g);
    }
  }

  lemma BeginKeeps(s: State, c: Client, action: Action)
    requires Inv(s) && c in s.clients && action.Begin? && CanAct(s, c, action)
    ensures Inv(Acted(s, c, action))
  {
    var s' := Acted(s, c, action);
    QuietFrame(s, s', c);
    assert ClientOk(s, c);
    forall g | g in s.claims
      ensures g.token != action.token
    {
      assert ClaimOk(s, g);
    }
    assert ClientOk(s', c);
    StepKeeps(s, s', c);
  }

  lemma AttemptKeeps(s: State, c: Client)
    requires Inv(s) && c in s.clients && CanAct(s, c, Attempt)
    ensures Inv(Acted(s, c, Attempt))
  {
    var s' := Acted(s, c, Attempt);
    QuietFrame(s, s', c);
    assert ClientOk(s, c);
    assert ClientOk(s', c);
    StepKeeps(s, s', c);
  }

  lemma SucceedKeeps(s: State, c: Client)
    requires Inv(s) && c in s.clients && CanAct(s, c, Succeed)
    ensures Inv(Acted(s, c, Succeed))
  {
    var s' := Acted(s, c, Succeed);
    var g := ClaimOf(c, s.clients[c].phase);
    assert ClientOk(s, c) && Backed(s, g);
    QuietFrame(s, s', c);
    QuietKeeps(s, s', g);
    forall h | h in s.claims
      ensures h.token != g.token
    {
      assert ClaimOk(s, h);
    }
    assert ClientOk(s', c);
    StepKeeps(s, s', c);
  }

  lemma GiveUpKeeps(s: State, c: Client)
    requires Inv(s) && c in s.clients && CanAct(s, c, GiveUp)
    ensures Inv(Acted(s, c, GiveUp))
  {
    var s' := Acted(s, c, GiveUp);
    QuietFrame(s, s', c);
    assert ClientOk(s, c);
    assert ClientOk(s', c);
    StepKeeps(s, s', c);
  }

  lemma UnlockKeeps(s: State, c: Client, t: Token)
    requires Inv(s) && c in s.clients && CanAct(s, c, Unlock(t))
    ensures Inv(Acted(s, c, Unlock(t)))
  {
    var s' := Acted(s, c, Unlock(t));
    QuietFrame(s, s', c);
    assert ClientOk(s, c);
    assert ClientOk(s', c);
    StepKeeps(s, s', c);
  }

  lemma UnlockedKeeps(s: State, c: Client)
    requires Inv(s) && c in s.clients && CanAct(s, c, Unlocked)
    ensures Inv(Acted(s, c, Unlocked))
  {
    var s' := Acted(s, c, Unlocked);
    QuietFrame(s, s', c);
    assert ClientOk(s, c);
    assert ClientOk(s', c);
    StepKeeps(s, s', c);
  }

  /** A command of client `c` runs on a server, or is lost: no live claim loses the server. */
  ghost predicate Sent(s: State, s': State, c: Client, server: nat, cmd: Command) {
    && WellFormed(s) && WellFormed(s') && c in s.clients && server < |s.clocks|
    && s'.now == s.now && s'.clocks == s.clocks && s'.issued == s.issued && s'.claims == s.claims
    && s'.clients.Keys == s.clients.Keys
    && (forall d :: d in s.clients && d != c ==> s'.clients[d] == s.clients[d])
    && s'.clients[c].continued == s.clients[c].continued
    && (forall g: Claim :: Backed(s, g) && Spares(server, cmd, g) ==> Backed(s', g))
    && (forall k :: 0 <= k < |s.clocks| && s'.clients[c].links[k].Late? ==>
          s'.clients[c].links[k] == s.clients[c].links[k] || s'.clients[c].links[k] == Late(cmd))
  }

  lemma SentKeeps(s: State, s': State, c: Client, server: nat, cmd: Command)
    requires Inv(s) && Sent(s, s', c, server, cmd) && OwnTokens(s, c, cmd)
    requires PhaseOk(s', c)
    requires forall g :: g in s.claims && g.client == c ==> Spares(server, cmd, g)
    ensures Inv(s')
  {
    hide Backed, PhaseOk, Spares, OwnTokens;
    forall g: Claim | g.client != c && Backed(s, g)
      ensures Backed(s', g)
    {
      OthersSpared(s, c, server, cmd, g);
    }
    assert ClientOk(s, c);
    forall k | 0 <= k < |s'.clients[c].links| && s'.clients[c].links[k].Late?
      ensures OwnTokens(s', c, s'.clients[c].links[k].command)
    {
      OwnStays(s, s', c, s'.clients[c].links[k].command);
    }
    StepKeeps(s, s', c);
  }

  lemma OwnStays(s: State, s': State, c: Client, cmd: Command)
    requires OwnTokens(s, c, cmd) && s'.issued == s.issued
    ensures OwnTokens(s', c, cmd)
  {
  }

  lemma SendIsSent(s: State, c: Client, server: nat, cmd: Command, outcome: Outcome, phase: Phase)
    requires WellFormed(s) && c in s.clients && server < |s.clocks|
    ensures Sent(s, SetPhase(SendTo(s, c, server, cmd, outcome), c, phase), c, server, cmd)
  {
    var mid := SendTo(s, c, server, cmd, outcome);
    var s' := SetPhase(mid, c, phase);
    assert Quiet(mid, s');
    forall g: Claim | Backed(s, g) && Spares(server, cmd, g)
      ensures Backed(s', g)
    {
      SendKeeps(s, c, server, cmd, outcome, g);
      QuietKeeps(mid, s', g);
    }
  }

  /** A server that grants an attempt holds its token, and goes on holding it, until the attempt's time. */
  lemma GrantIsBacked(s: State, c: Client, outcome: Outcome)
    requires Inv(s) && c in s.clients && CanAct(s, c, Ask(outcome))
    requires Granted(s, c, s.clients[c].phase.next, Request(s.clients[c].phase.call, s.clients[c].continued), outcome)
    ensures ServerKeeps(Asked(s, c, outcome), ClaimOf(c, s.clients[c].phase), s.clients[c].phase.next)
    ensures NoLateRemoval(Asked(s, c, outcome), ClaimOf(c, s.clients[c].phase), s.clients[c].phase.next)
  {
    var p := s.clients[c].phase;
    var cmd := Request(p.call, s.clients[c].continued);
    var ms := s.clocks[p.next].Floor;
    AcceptedHolds(s.keys[p.next], ms, cmd);
    assert ClientOk(s, c);
    KeyOutlivesClaim(s.clocks[p.next], s.now, p.start, p.call.ttl);
  }

  /** A key set at server time `clock` expires after the claim does, with the drift allowed for. */
  lemma KeyOutlivesClaim(clock: real, now: real, start: int, ttl: int)
    requires ttl > 0 && start as real <= now
    ensures (clock.Floor + ttl) as real >= clock + 1.01 * ((start + ttl - DriftOf(ttl)) as real - now)
  {
    assert 100 * (ttl / 100) >= ttl - 99;
  }

  lemma AskKeeps(s: State, c: Client, outcome: Outcome)
    requires Inv(s) && c in s.clients && CanAct(s, c, Ask(outcome))
    ensures Inv(Acted(s, c, Ask(outcome)))
  {
    hide Execute, SendTo, Granted;
    var p := s.clients[c].phase;
    var cmd := Request(p.call, s.clients[c].continued);
    var s' := Acted(s, c, Ask(outcome));
    SendIsSent(s, c, p.next, cmd, outcome, s'.clients[c].phase);
    assert ClientOk(s, c);
    var before, after := ClaimOf(c, p), ClaimOf(c, s'.clients[c].phase);
    assert Backed(s', before);
    if after != before {
      GrantIsBacked(s, c, outcome);
    }
    assert Backed(s', after);
    SentKeeps(s, s', c, p.next, cmd);
  }

  lemma AskDeleteKeeps(s: State, c: Client, outcome: Outcome)
    requires Inv(s) && c in s.clients && CanAct(s, c, AskDelete(outcome))
    ensures Inv(Acted(s, c, AskDelete(outcome)))
  {
    hide Execute, SendTo;
    var p := s.clients[c].phase;
    var cmd := Delete(p.resource, p.token);
    var s' := Acted(s, c, AskDelete(outcome));
    SendIsSent(s, c, p.next, cmd, outcome, s'.clients[c].phase);
    assert ClientOk(s, c);
    SentKeeps(s, s', c, p.next, cmd);
  }

  lemma RunLateKeeps(s: State, c: Client, server: nat)
    requires Inv(s) && c in s.clients && CanAct(s, c, RunLate(server))
    ensures Inv(Acted(s, c, RunLate(server)))
  {
    hide Execute;
    var cmd := s.clients[c].links[server].command;
    var s' := Acted(s, c, RunLate(server));
    assert ClientOk(s, c);
    forall g: Claim | Backed(s, g)
      ensures Backed(s', g)
    {
      if g.client != c {
        OthersSpared(s, c, server, cmd, g);
      }
      forall k | k in g.servers
        ensures ServerKeeps(s', g, k) && NoLateRemoval(s', g, k)
      {
        assert ServerKeeps(s, g, k) && NoLateRemoval(s, g, k);
        RunKeeps(s, server, cmd, g, k);
        assert ServerKeeps(RunOn(s, server, cmd), g, k);
      }
    }
    assert ClientOk(s', c);
    StepKeeps(s, s', c);
  }

  lemma TickInv(s: State, step: Step)
    requires Inv(s) && step.Tick? && Enabled(s, step)
    ensures Inv(After(s, step))
  {
    var s' := After(s, step);
    forall g: Claim | Backed(s, g)
      ensures Backed(s', g)
    {
      TickKeeps(s, step, g);
    }
    hide Backed, ClientOk;
    assert Frame(s, s', {});
    forall c | c in s'.clients
      ensures ClientOk(s', c)
    {
      OtherKept(s, s', {}, c);
    }
  }

  lemma ActKeeps(s: State, c: Client, action: Action)
    requires Inv(s) && c in s.clients && CanAct(s, c, action)
    ensures Inv(Acted(s, c, action))
  {
    hide Inv, Acted;
    match action
    case Begin(_, _, _, _, _) => BeginKeeps(s, c, action);
    case Attempt => AttemptKeeps(s, c);
    case Ask(outcome) => AskKeeps(s, c, outcome);
    case Succeed => SucceedKeeps(s, c);
    case GiveUp => GiveUpKeeps(s, c);
    case Unlock(t) => UnlockKeeps(s, c, t);
    case AskDelete(outcome) => AskDeleteKeeps(s, c, outcome);
    case Unlocked => UnlockedKeeps(s, c);
    case RunLate(server) => RunLateKeeps(s, c, server);
  }

  // ---------- runs ----------

  /** Nobody has called anything; the servers may hold any keys and the connections may be broken. */
  predicate Init(s: State) {
    && WellFormed(s)
    && s.issued == map[] && s.claims == {}
    && (forall c :: c in s.clients ==> s.clients[c].phase.Idle? && s.clients[c].continued.None? && NoneLate(s.clients[c].links))
  }

  predicate NoneLate(links: seq<Link>) {
    forall k :: 0 <= k < |links| ==> !links[k].Late?
  }

  ghost predicate Runs(s: State, steps: seq<Step>)
    decreases |steps|
  {
    steps == [] || (WellFormed(s) && Enabled(s, steps[0]) && Runs(After(s, steps[0]), steps[1..]))
  }

  ghost function Final(s: State, steps: seq<Step>): State
    requires Runs(s, steps)
    decreases |steps|
  {
    if steps == [] then s else Final(After(s, steps[0]), steps[1..])
  }

  lemma {:induction false} RunKeepsInv(s: State, steps: seq<Step>)
    requires Inv(s) && Runs(s, steps)
    ensures Inv(Final(s, steps)) && |Final(s, steps).clocks| == |s.clocks|
    decreases |steps|
  {
    if steps != [] {
      hide Inv, Acted;
      match steps[0] {
        case Tick(_, _) => TickInv(s, steps[0]);
        case Act(c, action) => ActKeeps(s, c, action); SameServers(s, c, action);
      }
      RunKeepsInv(After(s, steps[0]), steps[1..]);
    }
  }

  lemma SameServers(s: State, c: Client, action: Action)
    requires WellFormed(s) && c in s.clients && CanAct(s, c, action)
    ensures |Acted(s, c, action).clocks| == |s.clocks|
  {
  }

  predicate Exclusive(s: State) {
    forall g, h ::
      g in s.claims && h in s.claims && g.resource == h.resource && s.now < g.until as real && s.now < h.until as real ==>
        g == h
  }

  lemma {:induction false} QuorumsMeet(a: set<nat>, b: set<nat>, n: nat)
    requires n > 0 && (forall k :: k in a + b ==> k < n)
    requires |a| >= Quorum(n) && |b| >= Quorum(n)
    ensures exists k :: k in a && k in b
  {
    Below(a + b, n);
    assert |a + b| == |a| + |b| - |a * b|;
    var k :| k in a * b;
  }

  lemma {:induction false} Below(a: set<nat>, n: nat)
    requires forall k :: k in a ==> k < n
    ensures |a| <= n
    decreases n
  {
    if n == 0 {
      assert a == {};
    } else {
      var m := n - 1;
      Below(a - {m}, m);
      assert |a - {m}| >= |a| - 1;
    }
  }

  lemma InvExcludes(s: State)
    requires Inv(s) && |s.clocks| > 0
    ensures Exclusive(s)
  {
    forall g, h |
      g in s.claims && h in s.claims && g.resource == h.resource && s.now < g.until as real && s.now < h.until as real
      ensures g == h
    {
      assert ClaimOk(s, g) && ClaimOk(s, h);
      assert forall k :: k in g.servers ==> ServerKeeps(s, g, k);
      assert forall k :: k in h.servers ==> ServerKeeps(s, h, k);
      QuorumsMeet(g.servers, h.servers, |s.clocks|);
      var k :| k in g.servers && k in h.servers;
      assert ServerKeeps(s, g, k) && ServerKeeps(s, h, k);
    }
  }

  /** Mutual exclusion: in every state of every run no resource has two live claims. */
  lemma MutualExclusion(s: State, steps: seq<Step>)
    requires Init(s) && |s.clocks| > 0 && Runs(s, steps)
    ensures Exclusive(Final(s, steps))
  {
    assert Inv(s);
    RunKeepsInv(s, steps);
    InvExcludes(Final(s, steps));
  }

  // ---------- the limits of the claim ----------

  lemma RunsCons(s: State, step: Step, rest: seq<Step>)
    requires WellFormed(s) && Enabled(s, step) && Runs(After(s, step), rest)
    ensures Runs(s, [step] + rest) && Final(s, [step] + rest) == Final(After(s, step), rest)
  {
    hide After, Enabled;
    assert ([step] + rest)[1..] == rest;
  }

  /** Without servers the quorum is none, and a call succeeds at once. */
  lemma NoServersGrant(s: State, c: Client, r: Resource, t: Token, rest: seq<Step>) returns (steps: seq<Step>, s': State)
    requires WellFormed(s) && |s.clocks| == 0 && c in s.clients && s.clients[c].phase.Idle? && t !in s.issued
    ensures s' == s.(clients := s.clients[c := s.clients[c].(phase := Idle)],
                     issued := s.issued[t := Draw(c, r)],
                     claims := s.claims + {Claim(c, r, t, {}, Seconds(s.now) + 1978)})
    ensures WellFormed(s')
    ensures Runs(s', rest) ==> Runs(s, steps) && Final(s, steps) == Final(s', rest)
  {
    var a, b, d := Act(c, Begin(false, r, t, 2000, 1)), Act(c, Attempt), Act(c, Succeed);
    var s1 := After(s, a);
    var s2 := After(s1, b);
    s' := After(s2, d);
    steps := [a] + ([b] + ([d] + rest));
    if Runs(s', rest) {
      RunsCons(s2, d, rest);
      RunsCons(s1, b, [d] + rest);
      RunsCons(s, a, [b] + ([d] + rest));
    }
  }

  lemma NoServersNoExclusion(s: State, c: Client, d: Client) returns (steps: seq<Step>)
    requires Init(s) && c in s.clients && d in s.clients && |s.clocks| == 0
    ensures Runs(s, steps) && !Exclusive(Final(s, steps))
  {
    hide After, Enabled, NoneLate;
    var _, s1 := NoServersGrant(s, c, "r", "a", []);
    var later, s2 := NoServersGrant(s1, d, "r", "b", []);
    assert Runs(s2, []);
    assert Final(s2, []) == s2;
    var first, s1' := NoServersGrant(s, c, "r", "a", later);
    steps := first;
    assert s1' == s1;
    var g, h := Claim(c, "r", "a", {}, Seconds(s.now) + 1978), Claim(d, "r", "b", {}, Seconds(s.now) + 1978);
    assert g in s2.claims && h in s2.claims && g.token != h.token;
  }

  /** Runs exclude exactly when there is a server to ask. */
  lemma ExclusionNeedsServers(s: State, c: Client, d: Client)
    requires Init(s) && c in s.clients && d in s.clients
    ensures (forall steps :: Runs(s, steps) ==> Exclusive(Final(s, steps))) <==> |s.clocks| > 0
  {
    hide Runs, Final, Init, Exclusive;
    if |s.clocks| > 0 {
      forall steps | Runs(s, steps)
        ensures Exclusive(Final(s, steps))
      {
        MutualExclusion(s, steps);
      }
    } else {
      var steps := NoServersNoExclusion(s, c, d);
    }
  }

  // ---------- what ends a claim, and what a connection does ----------

  /** A claim ends only by the unlock of its value or by the extension that replaces it, both its own client's. */
  lemma ClaimEnds(s: State, step: Step, g: Claim)
    requires Inv(s) && Enabled(s, step) && g in s.claims
    ensures WellFormed(s)
    ensures g !in After(s, step).claims <==>
              step.Act? &&
              match step.action
              case Unlock(t) => t == g.token && s.issued[t].resource == g.resource
              case Begin(extend, r, t, _, _) =>
                extend && r == g.resource &&
                g.token == (if s.clients[step.client].continued.Some? then s.clients[step.client].continued.value else t)
              case _ => false
    ensures g !in After(s, step).claims ==> step.Act? && step.client == g.client
  {
    assert ClaimOk(s, g);
    hide Execute, SendTo;
    if step.Act? {
      assert ClientOk(s, step.client);
    }
  }

  /** Over a working connection a command is executed and answered, executed, lost or held up; over a broken one nothing is sent. */
  lemma SendOutcomes(s: State, c: Client, server: nat, cmd: Command, outcome: Outcome)
    requires WellFormed(s) && c in s.clients && server < |s.clocks|
    ensures var t := SendTo(s, c, server, cmd, outcome);
            var link, executed := s.clients[c].links[server], Execute(s.keys[server], s.clocks[server].Floor, cmd).keys;
            && c in t.clients && |t.keys| == |s.keys| && |t.clients[c].links| == |s.clocks|
            && (forall k :: 0 <= k < |s.keys| && k != server ==>
                  t.keys[k] == s.keys[k] && t.clients[c].links[k] == s.clients[c].links[k])
            && t.keys[server] == (if link.Up? && (outcome == Replied || outcome == ReplyLost) then executed else s.keys[server])
            && t.clients[c].links[server] ==
               if !link.Up? then link
               else match outcome
                    case Replied => Up
                    case ReplyLost => Down
                    case NotRun => Down
                    case Delayed => Late(cmd)
  {
    hide Execute;
  }

  // ---------- when a call succeeds ----------

  /** A clock reading is the last whole second. */
  lemma WholeSeconds(now: real)
    ensures Seconds(now) % 1000 == 0 && Seconds(now) as real <= now < Seconds(now) as real + 1000.0
  {
    var k := (now / 1000.0).Floor;
    assert k as real <= now / 1000.0 < k as real + 1.0;
  }

  /** What is left of the time to live after the time taken and one per cent and two milliseconds for the clocks. */
  lemma TimeLeft(now: real, start: int, ttl: int)
    requires ttl >= 0
    ensures Validity(now, start, ttl) == ttl - (Seconds(now) - start) - ttl / 100 - 2
  {
  }

  /** For any time to live the drift is a hundredth of it plus two, truncated toward zero. */
  lemma DriftTruncates(ttl: int)
    ensures ttl >= -200 ==> DriftOf(ttl) >= 0 && 100 * DriftOf(ttl) <= ttl + 200 < 100 * DriftOf(ttl) + 100
    ensures ttl < -200 ==> DriftOf(ttl) <= 0 && 100 * DriftOf(ttl) - 100 < ttl + 200 <= 100 * DriftOf(ttl)
  {
  }

  /**
    The verdict on an attempt that has asked all servers, when there are any: it succeeds exactly if more than
    half of them granted it and there is time left, and otherwise it can only be given up.
    */
  lemma VerdictIff(s: State, c: Client)
    requires WellFormed(s) && c in s.clients && s.clients[c].phase.Acquiring?
    requires s.clients[c].phase.next == |s.clocks| > 0
    ensures var p := s.clients[c].phase;
            var good := 2 * |p.granted| > |s.clocks| && p.call.ttl - (Seconds(s.now) - p.start) - DriftOf(p.call.ttl) > 0;
            && (Enabled(s, Act(c, Succeed)) <==> good)
            && (Enabled(s, Act(c, GiveUp)) <==> !good)
  {
  }

  /** The servers that grant an attempt to which nobody else does anything. */
  function Granting(s: State, c: Client, outcomes: seq<Outcome>): set<nat>
    requires WellFormed(s) && c in s.clients && s.clients[c].phase.Acquiring? && |outcomes| <= |s.clocks|
  {
    var call := s.clients[c].phase.call;
    set k | 0 <= k < |outcomes| && GrantsTo(s, k, c, call, outcomes[k])
  }

  /**
    The connection works and the answer arrives, the time to live is positive, and the resource is free; for an
    extension it may also be held by the value of the last call, which is taken for the new one if there was none.
    */
  predicate GrantsTo(s: State, k: nat, c: Client, call: Call, outcome: Outcome)
    requires WellFormed(s) && c in s.clients && k < |s.clocks|
  {
    && s.clients[c].links[k].Up? && outcome.Replied? && call.ttl > 0
    && (Live(s.keys[k], s.clocks[k].Floor, call.resource) ==>
          call.extend && s.clients[c].continued == Some(s.keys[k][call.resource].token))
  }

  lemma GrantedIff(s: State, c: Client, k: nat, call: Call, outcome: Outcome)
    requires WellFormed(s) && c in s.clients && k < |s.clocks|
    ensures Granted(s, c, k, Request(call, s.clients[c].continued), outcome) <==> GrantsTo(s, k, c, call, outcome)
  {
    AcceptedExactly(s.keys[k], s.clocks[k].Floor, Request(call, s.clients[c].continued));
    hide Execute;
  }

  function Asks(c: Client, outcomes: seq<Outcome>): (steps: seq<Step>)
    ensures |steps| == |outcomes| && forall k :: 0 <= k < |outcomes| ==> steps[k] == Act(c, Ask(outcomes[k]))
  {
    seq(|outcomes|, k requires 0 <= k < |outcomes| => Act(c, Ask(outcomes[k])))
  }

  /** The servers from `k` on are as they were in `s`, for the client too. */
  predicate AskedUpTo(s: State, t: State, c: Client, k: nat)
    requires WellFormed(s) && c in s.clients && k <= |s.clocks|
  {
    && WellFormed(t) && c in t.clients && t.now == s.now && t.clocks == s.clocks
    && t.clients[c].continued == s.clients[c].continued
    && forall j :: k <= j < |s.clocks| ==> t.keys[j] == s.keys[j] && t.clients[c].links[j] == s.clients[c].links[j]
  }

  lemma AskNext(s: State, t: State, c: Client, k: nat, outcome: Outcome)
    requires WellFormed(s) && c in s.clients && k < |s.clocks| && AskedUpTo(s, t, c, k)
    requires t.clients[c].phase.Acquiring? && t.clients[c].phase.next == k
    ensures Enabled(t, Act(c, Ask(outcome)))
    ensures var p := t.clients[c].phase;
            var t' := After(t, Act(c, Ask(outcome)));
            && AskedUpTo(s, t', c, k + 1)
            && t'.clients[c].phase == p.(granted := p.granted + (if GrantsTo(s, k, c, p.call, outcome) then {k} else {}), next := k + 1)
  {
    GrantedIff(t, c, k, t.clients[c].phase.call, outcome);
    hide Execute;
  }

  lemma {:induction false} AttemptFrom(s: State, t: State, c: Client, k: nat, outcomes: seq<Outcome>)
    requires WellFormed(s) && c in s.clients && s.clients[c].phase.Acquiring? && |outcomes| == |s.clocks|
    requires k <= |outcomes| && AskedUpTo(s, t, c, k)
    requires t.clients[c].phase == s.clients[c].phase.(granted := Granting(s, c, outcomes[..k]), next := k)
    ensures Runs(t, Asks(c, outcomes[k..]))
    ensures var end := Final(t, Asks(c, outcomes[k..]));
            && AskedUpTo(s, end, c, |outcomes|)
            && end.clients[c].phase == s.clients[c].phase.(granted := Granting(s, c, outcomes), next := |outcomes|)
    decreases |outcomes| - k
  {
    if k == |outcomes| {
      assert outcomes[..k] == outcomes && Asks(c, outcomes[k..]) == [];
    } else {
      AskNext(s, t, c, k, outcomes[k]);
      GrantingNext(s, c, outcomes, k);
      hide After, Enabled, Runs, Final, Granting, AskedUpTo, GrantsTo;
      var step := Act(c, Ask(outcomes[k]));
      AttemptFrom(s, After(t, step), c, k + 1, outcomes);
      assert Asks(c, outcomes[k..]) == [step] + Asks(c, outcomes[k + 1..]);
      AskedWellFormed(s, t, c, k);
      RunsCons(t, step, Asks(c, outcomes[k + 1..]));
    }
  }

  lemma AskedWellFormed(s: State, t: State, c: Client, k: nat)
    requires WellFormed(s) && c in s.clients && k <= |s.clocks| && AskedUpTo(s, t, c, k)
    ensures WellFormed(t)
  {
  }

  lemma GrantingNext(s: State, c: Client, outcomes: seq<Outcome>, k: nat)
    requires WellFormed(s) && c in s.clients && s.clients[c].phase.Acquiring? && k < |outcomes| <= |s.clocks|
    ensures Granting(s, c, outcomes[..k + 1]) ==
            Granting(s, c, outcomes[..k]) + if GrantsTo(s, k, c, s.clients[c].phase.call, outcomes[k]) then {k} else {}
  {
    hide GrantsTo;
  }

  /**
    A whole attempt to which nobody else does anything: its grants are those of `Granting`, so it can succeed
    exactly if that is more than half of the servers and the time that is left is positive.
    */
  lemma AttemptSucceedsIff(s: State, c: Client, outcomes: seq<Outcome>)
    requires WellFormed(s) && c in s.clients && s.clients[c].phase.Waiting? && |outcomes| == |s.clocks| > 0
    ensures var call := s.clients[c].phase.call;
            var asking := SetPhase(s, c, Acquiring(call, Seconds(s.now), {}, 0));
            var steps := [Act(c, Attempt)] + Asks(c, outcomes);
            && Runs(s, steps) && c in Final(s, steps).clients && WellFormed(Final(s, steps))
            && (Enabled(Final(s, steps), Act(c, Succeed)) <==>
                  2 * |Granting(asking, c, outcomes)| > |s.clocks| && call.ttl - DriftOf(call.ttl) > 0)
  {
    var call := s.clients[c].phase.call;
    var asking := SetPhase(s, c, Acquiring(call, Seconds(s.now), {}, 0));
    assert asking == After(s, Act(c, Attempt));
    assert Granting(asking, c, outcomes[..0]) == {};
    assert outcomes[0..] == outcomes;
    AttemptFrom(asking, asking, c, 0, outcomes);
    VerdictIff(Final(asking, Asks(c, outcomes)), c);
    hide After, Enabled, Granting, Runs, Final;
    RunsCons(s, Act(c, Attempt), Asks(c, outcomes));
  }

  /** The returned validity, counted from the return, overruns the claim by the part of a second the clock drops. */
  lemma ValidityOverrun(s: State, c: Client)
    requires c in s.clients && s.clients[c].phase.Acquiring?
    ensures var p := s.clients[c].phase;
            var overrun := s.now + Validity(s.now, p.start, p.call.ttl) as real - ClaimOf(c, p).until as real;
            overrun == s.now - Seconds(s.now) as real && 0.0 <= overrun < 1000.0
  {
  }

  lemma {:induction false} RunsAppend(s: State, steps: seq<Step>, more: seq<Step>)
    requires Runs(s, steps) && Runs(Final(s, steps), more)
    ensures Runs(s, steps + more) && Final(s, steps + more) == Final(Final(s, steps), more)
    decreases |steps|
  {
    hide After, Enabled;
    if steps == [] {
      assert steps + more == more;
    } else {
      RunsAppend(After(s, steps[0]), steps[1..], more);
      assert steps + more == [steps[0]] + (steps[1..] + more);
      RunsCons(s, steps[0], steps[1..] + more);
    }
  }

  /**
    What a caller may rely on. `s` is the state in which a call returns successfully, at the end of any run
    `before`; `rest` is any run from there. Counted from the start of the second of the return, and so from
    the return itself if that is on a whole second, the resource is the caller's alone for the whole returned
    validity, unless the caller itself gives it up or replaces its value.
    */
  lemma ValidFromTheSecond(init: State, before: seq<Step>, s: State, c: Client, rest: seq<Step>, end: State, h: Claim)
    requires Init(init) && |init.clocks| > 0 && Runs(init, before) && s == Final(init, before)
    requires WellFormed(s) && Enabled(s, Act(c, Succeed))
    requires Runs(After(s, Act(c, Succeed)), rest) && end == Final(After(s, Act(c, Succeed)), rest)
    requires var p := s.clients[c].phase;
             var validity := Validity(s.now, p.start, p.call.ttl);
             && ClaimOf(c, p) in end.claims
             && (end.now < (Seconds(s.now) + validity) as real
                 || (Seconds(s.now) as real == s.now && end.now < s.now + validity as real))
    requires h in end.claims && h.resource == s.clients[c].phase.call.resource && end.now < h.until as real
    ensures h == ClaimOf(c, s.clients[c].phase)
  {
    var g := ClaimOf(c, s.clients[c].phase);
    ValidityOverrun(s, c);
    assert end.now < g.until as real;
    hide Init, After, Enabled, Exclusive, Validity;
    RunsCons(s, Act(c, Succeed), rest);
    RunsAppend(init, before, [Act(c, Succeed)] + rest);
    MutualExclusion(init, before + ([Act(c, Succeed)] + rest));
    LiveAlone(end, g, h);
  }

  lemma LiveAlone(s: State, g: Claim, h: Claim)
    requires Exclusive(s) && g in s.claims && h in s.claims && g.resource == h.resource
    requires s.now < g.until as real && s.now < h.until as real
    ensures g == h
  {
  }

  /** A call of `Lock` that one healthy server answers and that returns `wait` milliseconds after it began. */
  function SoleCall(c: Client, r: Resource, t: Token, wait: real, clock: real): seq<Step> {
    [Act(c, Begin(false, r, t, 1000, 1)), Act(c, Attempt), Act(c, Ask(Replied)), Tick(wait, [clock + wait]), Act(c, Succeed)]
  }

  function SoleGranted(s: State, c: Client, r: Resource, t: Token, wait: real): State
    requires |s.clocks| == 1 && |s.keys| == 1
  {
    s.(now := s.now + wait, clocks := [s.clocks[0] + wait],
       keys := [s.keys[0][r := Key(t, s.clocks[0].Floor + 1000)]],
       clients := s.clients[c := ClientState(Idle, None, [Up])],
       issued := s.issued[t := Draw(c, r)],
       claims := s.claims + {Claim(c, r, t, {0}, Seconds(s.now) + 988)})
  }

  lemma SoleServerGrants(s: State, c: Client, r: Resource, t: Token, wait: real)
    requires WellFormed(s) && |s.clocks| == 1 && c in s.clients && s.clients[c] == ClientState(Idle, None, [Up])
    requires t !in s.issued && !Live(s.keys[0], s.clocks[0].Floor, r)
    requires Seconds(s.now) as real == s.now && 0.0 <= wait < 1000.0
    ensures Runs(s, SoleCall(c, r, t, wait, s.clocks[0]))
    ensures Final(s, SoleCall(c, r, t, wait, s.clocks[0])) == SoleGranted(s, c, r, t, wait)
  {
    hide After, Enabled, Seconds, Live;
    var call := Call(false, r, t, 1000, 1);
    var steps := SoleCall(c, r, t, wait, s.clocks[0]);
    var s1, s2 := SoleStart(s, c, call);
    var s3 := SoleAsk(s2, c, call);
    SameSecond(s.now, wait);
    var s5 := SoleReturn(s3, c, call, wait);
    assert s5 == SoleGranted(s, c, r, t, wait);
    RunsCons(s3, steps[3], [steps[4]]);
    RunsCons(s2, steps[2], [steps[3], steps[4]]);
    RunsCons(s1, steps[1], [steps[2], steps[3], steps[4]]);
    RunsCons(s, steps[0], [steps[1], steps[2], steps[3], steps[4]]);
  }

  lemma SoleStart(s: State, c: Client, call: Call) returns (s1: State, s2: State)
    requires WellFormed(s) && c in s.clients && s.clients[c].phase.Idle? && call.token !in s.issued
    requires !call.extend
    ensures var begin := Act(c, Begin(call.extend, call.resource, call.token, call.ttl, call.left));
            Enabled(s, begin) && s1 == After(s, begin)
    ensures WellFormed(s1) && Enabled(s1, Act(c, Attempt)) && s2 == After(s1, Act(c, Attempt))
    ensures s2 == s.(issued := s.issued[call.token := Draw(c, call.resource)],
                     clients := s.clients[c := s.clients[c].(phase := Acquiring(call, Seconds(s.now), {}, 0))])
  {
    s1 := After(s, Act(c, Begin(call.extend, call.resource, call.token, call.ttl, call.left)));
    s2 := After(s1, Act(c, Attempt));
  }

  lemma SoleReturn(s: State, c: Client, call: Call, wait: real) returns (s': State)
    requires WellFormed(s) && |s.clocks| == 1 && c in s.clients && !call.extend && call.ttl == 1000
    requires s.clients[c] == ClientState(Acquiring(call, Seconds(s.now), {0}, 1), None, [Up])
    requires wait >= 0.0 && Seconds(s.now + wait) == Seconds(s.now)
    ensures var tick := Tick(wait, [s.clocks[0] + wait]);
            && Enabled(s, tick) && WellFormed(After(s, tick))
            && Enabled(After(s, tick), Act(c, Succeed)) && s' == After(After(s, tick), Act(c, Succeed))
            && Runs(After(s, tick), [Act(c, Succeed)]) && Final(After(s, tick), [Act(c, Succeed)]) == s'
    ensures s' == s.(now := s.now + wait, clocks := [s.clocks[0] + wait],
                     clients := s.clients[c := ClientState(Idle, None, [Up])],
                     claims := s.claims + {Claim(c, call.resource, call.token, {0}, Seconds(s.now) + 988)})
  {
    var tick := Tick(wait, [s.clocks[0] + wait]);
    var s1 := After(s, tick);
    s' := After(s1, Act(c, Succeed));
    assert Runs(s', []);
    RunsCons(s1, Act(c, Succeed), []);
  }

  lemma SameSecond(now: real, wait: real)
    requires Seconds(now) as real == now && 0.0 <= wait < 1000.0
    ensures Seconds(now + wait) == Seconds(now)
  {
  }

  lemma SoleAsk(s: State, c: Client, call: Call) returns (s': State)
    requires WellFormed(s) && |s.clocks| == 1 && c in s.clients && !call.extend && call.ttl > 0
    requires s.clients[c] == ClientState(Acquiring(call, Seconds(s.now), {}, 0), None, [Up])
    requires !Live(s.keys[0], s.clocks[0].Floor, call.resource)
    ensures Enabled(s, Act(c, Ask(Replied))) && s' == After(s, Act(c, Ask(Replied)))
    ensures s' == s.(keys := [s.keys[0][call.resource := Key(call.token, s.clocks[0].Floor + call.ttl)]],
                     clients := s.clients[c := ClientState(Acquiring(call, Seconds(s.now), {0}, 1), None, [Up])])
  {
    s' := After(s, Act(c, Ask(Replied)));
    var ran := RunOn(s, 0, Request(call, None));
    assert ran.keys == [s.keys[0][call.resource := Key(call.token, s.clocks[0].Floor + call.ttl)]];
    assert [Up][0 := NextLink(Up, Replied, Request(call, None))] == [Up];
    assert {} + {0} == {0};
  }

  /** A caller that counts the returned validity from the return can share the resource with another client. */
  lemma ValidityIsNotExclusive(s: State, c: Client, d: Client, r: Resource)
      returns (mine: seq<Step>, g: Claim, validity: int, theirs: seq<Step>, h: Claim)
    requires Init(s) && |s.clocks| == 1 && c in s.clients && d in s.clients && c != d
    requires s.clients[c].links == [Up] && s.clients[d].links == [Up] && r !in s.keys[0]
    requires Seconds(s.now) as real == s.now
    ensures Runs(s, mine) && g in Final(s, mine).claims && g.client == c && g.resource == r
    ensures validity == g.until - Seconds(Final(s, mine).now)
    ensures var s1 := Final(s, mine);
            && Runs(s1, theirs) && (forall k :: 0 <= k < |theirs| && theirs[k].Act? ==> theirs[k].client == d)
            && h in Final(s1, theirs).claims && h.client == d && h.resource == r
            && Final(s1, theirs).now < h.until as real && Final(s1, theirs).now < s1.now + validity as real
  {
    hide After, Enabled;
    mine := SoleCall(c, r, "a", 999.0, s.clocks[0]);
    g, validity := Claim(c, r, "a", {0}, Seconds(s.now) + 988), 988;
    SoleServerGrants(s, c, r, "a", 999.0);
    SameSecond(s.now, 999.0);
    var s1 := Final(s, mine);
    var tick := Tick(1.0, [s1.clocks[0] + 1.0]);
    var s2 := OneMore(s1, tick);
    assert Seconds(s2.now) == Seconds(s.now) + 1000;
    theirs := [tick] + SoleCall(d, r, "b", 0.0, s2.clocks[0]);
    h := Claim(d, r, "b", {0}, Seconds(s2.now) + 988);
    SoleServerGrants(s2, d, r, "b", 0.0);
    RunsCons(s1, tick, SoleCall(d, r, "b", 0.0, s2.clocks[0]));
  }

  lemma OneMore(s: State, tick: Step) returns (s': State)
    requires WellFormed(s) && |s.clocks| == 1 && tick == Tick(1.0, [s.clocks[0] + 1.0])
    ensures Enabled(s, tick) && s' == After(s, tick) && s' == s.(now := s.now + 1.0, clocks := [s.clocks[0] + 1.0])
  {
    s' := After(s, tick);
  }
}
