/**
 Request callers, the rotation timer, reconcile passes and the host's single API token, interleaved
 at every await. An event names one atomic step; a run is any sequence of events that can all happen.
 */
module AuthProtocol {
  import opened Common
  import opened ManagedAuth

  type CallerId = nat

  datatype Outcome = Succeeded | Failed

  /** How far the server has come with a pass: each phase waits for something outside the process. */
  datatype Phase =
    | Auditing
    | Detecting(expire: int)
    | Executing
    | Settled(outcome: Outcome)

  /** A script that reached the host. It outlives its pass when the SSH connection is lost. */
  datatype Script = Script(expire: int, minted: Option<string>)

  datatype HostEvent =
    | Minted(pass: PassId, secret: string, expire: int)
    | Deleted(script: PassId)
    | Revoked

  datatype Plane = Api | Ssh

  /** The first try of a request, or the only retry, made after `repairedBy` succeeded. */
  datatype Attempt = First | Retry(repairedBy: PassId)

  datatype Verdict = Accepted | Unauthorized | OtherError

  datatype Progress =
    | Ensuring(attempt: Attempt)
    | AwaitingEnsure(attempt: Attempt, pass: PassId)
    | Ready(attempt: Attempt)
    | InFlight(attempt: Attempt, auth: Auth)
    | Replied(attempt: Attempt, verdict: Verdict)
    | AwaitingRepair(pass: PassId)
    | Done(success: bool)

  /** One `apiRequest` or `runSshCommand` call, with the requests it sent and the passes it started. */
  datatype Caller = Caller(plane: Plane, progress: Progress, sent: nat, led: nat)

  datatype State = State(
    server: ManagedState,
    now: nat,
    passes: map<PassId, Phase>,
    nextPass: PassId,
    outcomes: map<PassId, Outcome>,
    committed: set<PassId>,
    armed: map<TimerId, nat>,
    nextTimer: TimerId,
    scripts: map<PassId, Script>,
    log: seq<HostEvent>,
    callers: map<CallerId, Caller>)

  datatype Event =
    | Tick(ms: nat)
    | Arrive(c: CallerId, plane: Plane)
    | RunEnsure(c: CallerId)
    | ResumeEnsure(c: CallerId)
    | Send(c: CallerId)
    | Check(c: CallerId, verdict: Verdict)
    | React(c: CallerId, looksLikeAuth: bool)
    | ResumeRepair(c: CallerId)
    | Startup
    | FireTimer(t: TimerId)
    | AuditDone(p: PassId)
    | DetectDone(p: PassId)
    | PassFails(p: PassId)
    | PassCommits(p: PassId)
    | Cleanup(p: PassId)
    | HostDeletes(p: PassId)
    | HostMints(p: PassId, secret: string)
    | HostRevokes
    | SwapAuth(user: string, secret: string)

  const Initial := State(
    ManagedState(SshBootstrap, None, None, None, None, None),
    0, map[], 0, map[], {}, map[], 0, map[], [], map[])

  // ---------------------------------------------------------------- steps

  /** `repairCluster` up to its await: the new state and the pass the caller awaits. */
  function RequestRepair(s: State, locked: bool): (State, PassId) {
    if locked && s.server.repairPromise.Some? then
      (s, s.server.repairPromise.value)
    else
      (s.(server := s.server.(repairPromise := Some(s.nextPass)),
          passes := s.passes[s.nextPass := Auditing],
          nextPass := s.nextPass + 1), s.nextPass)
  }

  function SetCaller(s: State, c: CallerId, progress: Progress): State
    requires c in s.callers
  {
    s.(callers := s.callers[c := s.callers[c].(progress := progress)])
  }

  /** The caller starts a pass because a deadline is near, and awaits it. */
  function LeadAndWait(s: State, c: CallerId, attempt: Attempt, locked: bool): State
    requires c in s.callers
  {
    var (after, p) := RequestRepair(s, locked);
    after.(callers := after.callers[c := s.callers[c].(progress := AwaitingEnsure(attempt, p), led := s.callers[c].led + 1)])
  }

  /** `ensureCluster` as the caller's next piece of code. */
  function EnsureStep(s: State, c: CallerId, locked: bool): State
    requires c in s.callers && s.callers[c].progress.Ensuring?
  {
    var caller := s.callers[c];
    var attempt := caller.progress.attempt;
    match Ensure(s.server, s.now)
    case Join(p) => SetCaller(s, c, AwaitingEnsure(attempt, p))
    case Lead => LeadAndWait(s, c, attempt, locked)
    case _ => SetCaller(s, c, Ready(attempt))
  }

  /** The caller asks for a repair and awaits the pass it got; it leads that pass if it is a new one. */
  function RepairAndWait(s: State, c: CallerId, locked: bool): State
    requires c in s.callers
  {
    var (after, p) := RequestRepair(s, locked);
    var led := if after.nextPass == s.nextPass then s.callers[c].led else s.callers[c].led + 1;
    after.(callers := after.callers[c := s.callers[c].(progress := AwaitingRepair(p), led := led)])
  }

  /**
   The caller's code once a reply, or the error it became, is back. Whether a failure counts as one of
   authentication is read off its text, which every 401 passes and other failures may pass too.
   */
  function ReactStep(s: State, c: CallerId, looksLikeAuth: bool, locked: bool): State
    requires c in s.callers && s.callers[c].progress.Replied?
  {
    var caller := s.callers[c];
    if caller.progress.verdict == Accepted then SetCaller(s, c, Done(true))
    else if looksLikeAuth && caller.progress.attempt.First? then RepairAndWait(s, c, locked)
    else SetCaller(s, c, Done(false))
  }

  /** The token the host accepts: that of the last mint, unless something removed it since. */
  function Live(log: seq<HostEvent>): Option<string> {
    if log != [] && log[|log| - 1].Minted? then Some(log[|log| - 1].secret) else None
  }

  /** The host answers 401 to exactly the requests that do not carry its live, unexpired token. */
  predicate MayAnswer(s: State, plane: Plane, auth: Auth, verdict: Verdict) {
    plane == Api && auth.ManagedToken? ==>
      (verdict == Unauthorized
       <==> !(Live(s.log) == Some(auth.secret) && s.now < s.log[|s.log| - 1].expire * 1000))
  }

  function CallerStep(s: State, e: Event, locked: bool): Option<State>
    requires e.Arrive? || e.RunEnsure? || e.ResumeEnsure? || e.Send? || e.Check? || e.React? || e.ResumeRepair?
  {
    if e.Arrive? then
      if e.c in s.callers then None
      else Some(s.(callers := s.callers[e.c := Caller(e.plane, Ensuring(First), 0, 0)]))
    else if e.c !in s.callers then None
    else
      var caller := s.callers[e.c];
      match e
      case RunEnsure(c) =>
        if caller.progress.Ensuring? then Some(EnsureStep(s, c, locked)) else None
      case ResumeEnsure(c) =>
        if caller.progress.AwaitingEnsure? && caller.progress.pass in s.outcomes then
          Some(SetCaller(s, c, if s.outcomes[caller.progress.pass] == Succeeded
                               then Ready(caller.progress.attempt) else Done(false)))
        else None
      case Send(c) =>
        if !caller.progress.Ready? then None
        else if caller.plane == Api && s.server.auth.SshBootstrap? then
          Some(SetCaller(s, c, Replied(caller.progress.attempt, OtherError)))
        else Some(s.(callers := s.callers[c := caller.(
                       progress := InFlight(caller.progress.attempt, s.server.auth), sent := caller.sent + 1)]))
      case Check(c, verdict) =>
        if caller.progress.InFlight? && MayAnswer(s, caller.plane, caller.progress.auth, verdict) then
          Some(SetCaller(s, c, Replied(caller.progress.attempt, verdict)))
        else None
      case React(c, looksLikeAuth) =>
        if caller.progress.Replied? && (caller.progress.verdict == Unauthorized ==> looksLikeAuth) then
          Some(ReactStep(s, c, looksLikeAuth, locked))
        else None
      case ResumeRepair(c) =>
        if caller.progress.AwaitingRepair? && caller.progress.pass in s.outcomes then
          Some(SetCaller(s, c, if s.outcomes[caller.progress.pass] == Succeeded
                               then Ensuring(Retry(caller.progress.pass)) else Done(false)))
        else None
      case _ => None
  }

  function PassStep(s: State, e: Event): Option<State>
    requires e.AuditDone? || e.DetectDone? || e.PassFails? || e.PassCommits? || e.Cleanup?
  {
    if e.p !in s.passes then None
    else
      var phase := s.passes[e.p];
      match e
      case AuditDone(p) =>
        if phase.Auditing? then Some(s.(passes := s.passes[p := Detecting(ScriptExpire(s.now))])) else None
      case DetectDone(p) =>
        if phase.Detecting? then
          Some(s.(passes := s.passes[p := Executing], scripts := s.scripts[p := Script(phase.expire, None)]))
        else None
      case PassFails(p) =>
        if phase.Settled? then None else Some(s.(passes := s.passes[p := Settled(Failed)]))
      case PassCommits(p) =>
        if phase.Executing? && p in s.scripts && s.scripts[p].minted.Some? then
          Some(s.(
            passes := s.passes[p := Settled(Succeeded)],
            committed := s.committed + {p},
            server := Commit(s.server, s.scripts[p].minted.value, s.scripts[p].expire, s.nextTimer, s.now),
            armed := Rearm(s.armed, s.server.rotationTimer, s.nextTimer, s.now),
            nextTimer := s.nextTimer + 1))
        else None
      case Cleanup(p) =>
        if phase.Settled? then
          Some(s.(passes := s.passes - {p},
                  outcomes := s.outcomes[p := phase.outcome],
                  server := s.server.(repairPromise := None)))
        else None
      case _ => None
  }

  /** The token the script deletes and the one it adds; a script adds at most one. */
  function HostStep(s: State, e: Event): Option<State>
    requires e.HostDeletes? || e.HostMints? || e.HostRevokes?
  {
    match e
    case HostRevokes => Some(s.(log := s.log + [Revoked]))
    case HostDeletes(p) =>
      if p in s.scripts && s.scripts[p].minted.None? then Some(s.(log := s.log + [Deleted(p)])) else None
    case HostMints(p, secret) =>
      if p in s.scripts && s.scripts[p].minted.None? then
        Some(s.(log := s.log + [Minted(p, secret, s.scripts[p].expire)],
                scripts := s.scripts[p := s.scripts[p].(minted := Some(secret))]))
      else None
    case _ => None
  }

  /** One event; `None` when it cannot happen now. `locked == false` drops the single-flight check. */
  function Step(s: State, e: Event, locked: bool := true): Option<State> {
    match e
    case Tick(ms) => Some(s.(now := s.now + ms))
    case Startup => Some(RequestRepair(s, locked).0)
    case FireTimer(t) =>
      if t in s.armed && s.armed[t] <= s.now then Some(RequestRepair(s.(armed := s.armed - {t}), locked).0) else None
    case SwapAuth(user, secret) => Some(s.(server := s.server.(auth := OutsideToken(user, secret))))
    case HostRevokes => HostStep(s, e)
    case HostDeletes(_) => HostStep(s, e)
    case HostMints(_, _) => HostStep(s, e)
    case AuditDone(_) => PassStep(s, e)
    case DetectDone(_) => PassStep(s, e)
    case PassFails(_) => PassStep(s, e)
    case PassCommits(_) => PassStep(s, e)
    case Cleanup(_) => PassStep(s, e)
    case _ => CallerStep(s, e, locked)
  }

  function Run(s: State, es: seq<Event>, locked: bool := true): Option<State>
    decreases |es|
  {
    if es == [] then Some(s)
    else
      var next := Step(s, es[0], locked);
      if next.None? then None else Run(next.value, es[1..], locked)
  }

  // ----------------------------------------------------------- invariants

  /** A pass is under way exactly while its promise is the stored one, so there is at most one. */
  ghost predicate LockInv(s: State) {
    && (forall p :: p in s.passes <==> s.server.repairPromise == Some(p))
    && (forall p :: p in s.passes ==> p < s.nextPass && p !in s.outcomes)
    && (forall p :: p in s.outcomes ==> p < s.nextPass)
    && (forall p :: p in s.scripts ==> p < s.nextPass)
    && (forall p :: p in s.passes && (s.passes[p].Auditing? || s.passes[p].Detecting?) ==> p !in s.scripts)
  }

  ghost predicate TimerInv(s: State) {
    forall t :: t in s.armed ==> s.server.rotationTimer == Some(t) && t < s.nextTimer
  }

  /** The last thing that happened to the host's token is that pass `p`'s script minted it. */
  predicate LastMintedBy(s: State, p: PassId) {
    s.log != [] && s.log[|s.log| - 1].Minted? && s.log[|s.log| - 1].pass == p
  }

  /** The server uses the host's last minted token and knows when it expires. */
  predicate Agrees(log: seq<HostEvent>, auth: Auth, tokenExpiresAt: Option<int>, passwordExpiresAt: Option<int>) {
    && log != [] && log[|log| - 1].Minted?
    && auth == ManagedToken(log[|log| - 1].secret)
    && tokenExpiresAt == Some(log[|log| - 1].expire * 1000)
    && passwordExpiresAt.Some?
  }

  ghost predicate CommitInv(s: State) {
    && (forall p :: p in s.committed ==> p in s.scripts && s.scripts[p].minted.Some?)
    && (forall p :: p in s.committed && p in s.passes ==> s.passes[p] == Settled(Succeeded))
    && (forall p :: p in s.outcomes && s.outcomes[p] == Succeeded ==> p in s.committed)
    && (forall p :: p in s.passes && s.passes[p] == Settled(Succeeded) ==> p in s.committed)
  }

  /** A pass that is still to commit minted after every pass that has committed. */
  ghost predicate TokenInv(s: State) {
    s.log != [] && s.log[|s.log| - 1].Minted? ==>
      var last := s.log[|s.log| - 1];
      && last.pass in s.scripts && s.scripts[last.pass] == Script(last.expire, Some(last.secret))
      && (last.pass in s.committed && !s.server.auth.OutsideToken? ==>
            Agrees(s.log, s.server.auth, s.server.tokenExpiresAt, s.server.passwordExpiresAt))
      && (forall p :: p in s.passes && s.passes[p].Executing? && p in s.scripts && s.scripts[p].minted.Some?
            ==> last.pass !in s.committed)
  }

  /** How many requests a caller may have sent, and passes it may have started, at each point of its code. */
  predicate Bounded(caller: Caller) {
    match caller.progress
    case Ensuring(First) => caller.sent == 0 && caller.led == 0
    case AwaitingEnsure(First, _) => caller.sent == 0 && caller.led <= 1
    case Ready(First) => caller.sent == 0 && caller.led <= 1
    case InFlight(First, _) => caller.sent == 1 && caller.led <= 1
    case Replied(First, _) => caller.sent <= 1 && caller.led <= 1
    case AwaitingRepair(_) => caller.sent <= 1 && caller.led <= 2
    case Ensuring(Retry(_)) => caller.sent <= 1 && caller.led <= 2
    case AwaitingEnsure(Retry(_), _) => caller.sent <= 1 && caller.led <= 3
    case Ready(Retry(_)) => caller.sent <= 1 && caller.led <= 3
    case InFlight(Retry(_), _) => 1 <= caller.sent <= 2 && caller.led <= 3
    case Replied(Retry(_), _) => caller.sent <= 2 && caller.led <= 3
    case Done(_) => caller.sent <= 2 && caller.led <= 3
  }

  predicate HasAttempt(g: Progress) {
    g.Ensuring? || g.AwaitingEnsure? || g.Ready? || g.InFlight? || g.Replied?
  }

  ghost predicate CallerOk(s: State, caller: Caller) {
    var g := caller.progress;
    && Bounded(caller)
    && (g.AwaitingEnsure? || g.AwaitingRepair? ==> g.pass in s.passes || g.pass in s.outcomes)
    && (HasAttempt(g) && g.attempt.Retry? ==> g.attempt.repairedBy in s.committed)
    && (g.InFlight? && g.attempt.Retry? && !g.auth.OutsideToken? && LastMintedBy(s, g.attempt.repairedBy)
        ==> g.auth == ManagedToken(s.log[|s.log| - 1].secret))
  }

  ghost predicate CallerInv(s: State) {
    forall c :: c in s.callers ==> CallerOk(s, s.callers[c])
  }

  ghost predicate ServerInv(s: State) {
    LockInv(s) && TimerInv(s) && CommitInv(s) && TokenInv(s)
  }

  ghost predicate Inv(s: State) {
    ServerInv(s) && CallerInv(s)
  }

  /** Steps that leave the log alone and forget no pass keep every caller's part of the invariant. */
  lemma CallersUnaffected(s: State, s': State)
    requires CallerInv(s) && s'.callers == s.callers
    requires s'.log == s.log || (s'.log != [] && !s'.log[|s'.log| - 1].Minted?)
             || (s'.log != [] && s'.log[|s'.log| - 1].Minted? && s'.log[|s'.log| - 1].pass !in s.committed)
    requires s.committed <= s'.committed
    requires forall p :: p in s.passes || p in s.outcomes ==> p in s'.passes || p in s'.outcomes
    ensures CallerInv(s')
  {
    forall c | c in s'.callers ensures CallerOk(s', s'.callers[c]) {
      assert CallerOk(s, s.callers[c]);
    }
  }

  lemma RequestRepairKeepsInv(s: State)
    requires Inv(s)
    ensures var (after, p) := RequestRepair(s, true);
            Inv(after) && after.server.repairPromise == Some(p) && p in after.passes
            && after.callers == s.callers && after.log == s.log && after.committed == s.committed
  {
    hide Agrees, CallerInv;
    if s.server.repairPromise.None? {
      NewPassKeepsServer(s);
    }
    CallersUnaffected(s, RequestRepair(s, true).0);
    hide ServerInv;
  }

  /** Starting a pass when none is under way. */
  lemma NewPassKeepsServer(s: State)
    requires ServerInv(s) && s.server.repairPromise.None?
    ensures ServerInv(RequestRepair(s, true).0)
  {
    var after := RequestRepair(s, true).0;
    NewPassKeepsLock(s);
    assert after.log == s.log && after.committed == s.committed && after.scripts == s.scripts && after.armed == s.armed;
    hide LockInv, Agrees, RequestRepair;
    assert forall p :: p in after.passes && p != s.nextPass ==> p in s.passes && after.passes[p] == s.passes[p];
  }

  lemma NewPassKeepsLock(s: State)
    requires ServerInv(s) && s.server.repairPromise.None?
    ensures var after := RequestRepair(s, true).0;
            && LockInv(after) && after.outcomes == s.outcomes && s.nextPass !in s.committed && s.nextPass !in s.outcomes
            && after.server == s.server.(repairPromise := Some(s.nextPass)) && after.nextTimer == s.nextTimer
            && after.passes == s.passes[s.nextPass := Auditing] && after.log == s.log && after.committed == s.committed
            && after.scripts == s.scripts && after.armed == s.armed
  {
    hide TokenInv, TimerInv;
  }

  /** Replacing one caller's record keeps the invariant when the new record satisfies its part. */
  lemma OneCaller(s: State, c: CallerId, caller: Caller)
    requires Inv(s) && CallerOk(s, caller)
    ensures Inv(s.(callers := s.callers[c := caller]))
  {
    var s' := s.(callers := s.callers[c := caller]);
    forall d | d in s'.callers ensures CallerOk(s', s'.callers[d]) {
      if d != c { assert CallerOk(s, s.callers[d]); }
    }
  }

  /** A caller that has just asked for a repair satisfies its part of the invariant. */
  lemma WaitingOk(s: State, c: CallerId, waiting: Caller)
    requires Inv(s) && c in s.callers
    requires waiting.progress.AwaitingEnsure? || waiting.progress.AwaitingRepair?
    requires waiting.progress.AwaitingEnsure? ==>
               s.callers[c].progress == Ensuring(waiting.progress.attempt) && waiting.led == s.callers[c].led + 1
    requires waiting.progress.AwaitingRepair? ==>
               s.callers[c].progress.Replied? && s.callers[c].progress.attempt == First && waiting.led <= s.callers[c].led + 1
    requires waiting.sent == s.callers[c].sent && waiting.progress.pass in s.passes
    ensures CallerOk(s, waiting)
  {
    assert CallerOk(s, s.callers[c]);
    hide Inv;
  }

  lemma LeadKeepsInv(s: State, c: CallerId)
    requires Inv(s) && c in s.callers && s.callers[c].progress.Ensuring? && s.server.repairPromise.None?
    ensures Inv(LeadAndWait(s, c, s.callers[c].progress.attempt, true))
  {
    hide Inv, RequestRepair, CallerOk;
    RequestRepairKeepsInv(s);
    var (after, p) := RequestRepair(s, true);
    var waiting := s.callers[c].(progress := AwaitingEnsure(s.callers[c].progress.attempt, p), led := s.callers[c].led + 1);
    WaitingOk(after, c, waiting);
    OneCaller(after, c, waiting);
  }

  lemma EnsureKeepsInv(s: State, c: CallerId)
    requires Inv(s) && c in s.callers && s.callers[c].progress.Ensuring?
    ensures Inv(EnsureStep(s, c, true))
  {
    var caller := s.callers[c];
    assert CallerOk(s, caller);
    hide LeadAndWait;
    if Ensure(s.server, s.now) == Lead {
      LeadKeepsInv(s, c);
    } else if s.server.repairPromise.Some? {
      OneCaller(s, c, caller.(progress := AwaitingEnsure(caller.progress.attempt, s.server.repairPromise.value)));
    } else {
      OneCaller(s, c, caller.(progress := Ready(caller.progress.attempt)));
    }
  }

  lemma AuthFailureKeepsInv(s: State, c: CallerId)
    requires Inv(s) && c in s.callers && s.callers[c].progress.Replied? && s.callers[c].progress.attempt == First
    ensures Inv(RepairAndWait(s, c, true))
  {
    hide Inv, RequestRepair, CallerOk;
    RequestRepairKeepsInv(s);
    var (after, p) := RequestRepair(s, true);
    var led := if after.nextPass == s.nextPass then s.callers[c].led else s.callers[c].led + 1;
    var waiting := s.callers[c].(progress := AwaitingRepair(p), led := led);
    WaitingOk(after, c, waiting);
    OneCaller(after, c, waiting);
  }

  lemma ReactKeepsInv(s: State, c: CallerId, looksLikeAuth: bool)
    requires Inv(s) && c in s.callers && s.callers[c].progress.Replied?
    ensures Inv(ReactStep(s, c, looksLikeAuth, true))
  {
    var caller := s.callers[c];
    assert CallerOk(s, caller);
    hide Inv, RepairAndWait;
    if caller.progress.verdict != Accepted && looksLikeAuth && caller.progress.attempt.First? {
      AuthFailureKeepsInv(s, c);
    } else {
      OneCaller(s, c, caller.(progress := Done(caller.progress.verdict == Accepted)));
    }
  }

  /** The record of a caller whose request has just gone out. */
  lemma SentOk(s: State, c: CallerId)
    requires Inv(s) && c in s.callers && s.callers[c].progress.Ready?
    ensures var caller := s.callers[c];
            CallerOk(s, caller.(progress := InFlight(caller.progress.attempt, s.server.auth), sent := caller.sent + 1))
  {
    assert CallerOk(s, s.callers[c]);
    hide LockInv, TimerInv, CallerInv;
  }

  /** The record of a caller whose request could not be built. */
  lemma UnsentOk(s: State, c: CallerId)
    requires Inv(s) && c in s.callers && s.callers[c].progress.Ready?
    ensures CallerOk(s, s.callers[c].(progress := Replied(s.callers[c].progress.attempt, OtherError)))
  {
    assert CallerOk(s, s.callers[c]);
    hide LockInv, TimerInv, CommitInv, TokenInv, CallerInv;
  }

  lemma SendKeepsInv(s: State, c: CallerId)
    requires Inv(s) && c in s.callers && s.callers[c].progress.Ready? && CallerStep(s, Send(c), true).Some?
    ensures Inv(CallerStep(s, Send(c), true).value)
  {
    hide Inv, CallerOk;
    var caller := s.callers[c];
    if caller.plane == Api && s.server.auth.SshBootstrap? {
      UnsentOk(s, c);
      OneCaller(s, c, caller.(progress := Replied(caller.progress.attempt, OtherError)));
    } else {
      SentOk(s, c);
      OneCaller(s, c, caller.(progress := InFlight(caller.progress.attempt, s.server.auth), sent := caller.sent + 1));
    }
  }

  lemma CallerStepKeepsInv(s: State, e: Event)
    requires Inv(s)
    requires e.Arrive? || e.RunEnsure? || e.ResumeEnsure? || e.Send? || e.Check? || e.React? || e.ResumeRepair?
    requires CallerStep(s, e, true).Some?
    ensures Inv(CallerStep(s, e, true).value)
  {
    if e.Arrive? {
      OneCaller(s, e.c, Caller(e.plane, Ensuring(First), 0, 0));
      return;
    }
    var caller := s.callers[e.c];
    assert CallerOk(s, caller);
    match e
    case RunEnsure(c) => EnsureKeepsInv(s, c);
    case Send(c) => SendKeepsInv(s, c);
    case React(c, looksLikeAuth) => ReactKeepsInv(s, c, looksLikeAuth);
    case ResumeEnsure(c) =>
      OneCaller(s, c, caller.(progress := if s.outcomes[caller.progress.pass] == Succeeded
                                          then Ready(caller.progress.attempt) else Done(false)));
    case Check(c, verdict) =>
      OneCaller(s, c, caller.(progress := Replied(caller.progress.attempt, verdict)));
    case ResumeRepair(c) =>
      OneCaller(s, c, caller.(progress := if s.outcomes[caller.progress.pass] == Succeeded
                                          then Ensuring(Retry(caller.progress.pass)) else Done(false)));
  }

  lemma PassCommitsKeepsInv(s: State, p: PassId)
    requires Inv(s) && PassStep(s, PassCommits(p)).Some?
    ensures Inv(PassStep(s, PassCommits(p)).value)
  {
    CallersUnaffected(s, PassStep(s, PassCommits(p)).value);
  }

  lemma CleanupKeepsInv(s: State, p: PassId)
    requires Inv(s) && PassStep(s, Cleanup(p)).Some?
    ensures Inv(PassStep(s, Cleanup(p)).value)
  {
    CallersUnaffected(s, PassStep(s, Cleanup(p)).value);
  }

  lemma PassStepKeepsInv(s: State, e: Event)
    requires Inv(s)
    requires e.AuditDone? || e.DetectDone? || e.PassFails?
    requires PassStep(s, e).Some?
    ensures Inv(PassStep(s, e).value)
  {
    hide Inv, CallerInv, Agrees;
    match e
    case AuditDone(p) => AuditDoneKeepsInv(s, p);
    case DetectDone(p) => DetectDoneKeepsInv(s, p);
    case PassFails(p) => PassFailsKeepsInv(s, p);
  }

  lemma AuditDoneKeepsInv(s: State, p: PassId)
    requires Inv(s) && PassStep(s, AuditDone(p)).Some?
    ensures Inv(PassStep(s, AuditDone(p)).value)
  {
    CallersUnaffected(s, PassStep(s, AuditDone(p)).value);
    hide CallerInv, Agrees;
  }

  lemma DetectDoneKeepsInv(s: State, p: PassId)
    requires Inv(s) && PassStep(s, DetectDone(p)).Some?
    ensures Inv(PassStep(s, DetectDone(p)).value)
  {
    CallersUnaffected(s, PassStep(s, DetectDone(p)).value);
    hide CallerInv, Agrees;
  }

  lemma PassFailsKeepsInv(s: State, p: PassId)
    requires Inv(s) && PassStep(s, PassFails(p)).Some?
    ensures Inv(PassStep(s, PassFails(p)).value)
  {
    CallersUnaffected(s, PassStep(s, PassFails(p)).value);
    hide CallerInv, Agrees;
  }

  lemma HostStepKeepsInv(s: State, e: Event)
    requires Inv(s)
    requires e.HostDeletes? || e.HostMints? || e.HostRevokes?
    requires HostStep(s, e).Some?
    ensures Inv(HostStep(s, e).value)
  {
    CallersUnaffected(s, HostStep(s, e).value);
  }

  lemma EnvironmentKeepsInv(s: State, e: Event)
    requires Inv(s) && Step(s, e).Some?
    requires e.Tick? || e.SwapAuth? || e.Startup? || e.FireTimer?
    ensures Inv(Step(s, e).value)
  {
    hide CallerStep, PassStep, HostStep, RequestRepair;
    match e
    case Tick(_) => CallersUnaffected(s, Step(s, e).value);
    case SwapAuth(_, _) => CallersUnaffected(s, Step(s, e).value);
    case Startup => RequestRepairKeepsInv(s);
    case FireTimer(t) => FireTimerKeepsInv(s, t);
  }

  lemma FireTimerKeepsInv(s: State, t: TimerId)
    requires Inv(s) && Step(s, FireTimer(t)).Some?
    ensures Inv(Step(s, FireTimer(t)).value)
  {
    DisarmedTimer(s, t);
    hide Inv, CallerStep, PassStep, HostStep;
    RequestRepairKeepsInv(s.(armed := s.armed - {t}));
  }

  lemma DisarmedTimer(s: State, t: TimerId)
    requires Inv(s)
    ensures Inv(s.(armed := s.armed - {t}))
  {
    CallersUnaffected(s, s.(armed := s.armed - {t}));
  }

  lemma StepKeepsInv(s: State, e: Event)
    requires Inv(s) && Step(s, e).Some?
    ensures Inv(Step(s, e).value)
  {
    hide Inv, CallerStep, PassStep, HostStep, RequestRepair;
    match e
    case Tick(_) => EnvironmentKeepsInv(s, e);
    case SwapAuth(_, _) => EnvironmentKeepsInv(s, e);
    case Startup => EnvironmentKeepsInv(s, e);
    case FireTimer(t) => EnvironmentKeepsInv(s, e);
    case HostRevokes => HostStepKeepsInv(s, e);
    case HostDeletes(_) => HostStepKeepsInv(s, e);
    case HostMints(_, _) => HostStepKeepsInv(s, e);
    case AuditDone(_) => PassStepKeepsInv(s, e);
    case DetectDone(_) => PassStepKeepsInv(s, e);
    case PassFails(_) => PassStepKeepsInv(s, e);
    case PassCommits(p) => PassCommitsKeepsInv(s, p);
    case Cleanup(p) => CleanupKeepsInv(s, p);
    case _ => CallerStepKeepsInv(s, e);
  }

  lemma {:induction false} RunKeepsInv(s: State, es: seq<Event>)
    requires Inv(s) && Run(s, es).Some?
    ensures Inv(Run(s, es).value)
    decreases |es|
  {
    if es != [] {
      StepKeepsInv(s, es[0]);
      RunKeepsInv(Step(s, es[0]).value, es[1..]);
    }
  }

  ghost predicate Reachable(s: State) {
    exists es :: Run(Initial, es) == Some(s)
  }

  lemma ReachableInv(s: State)
    requires Reachable(s)
    ensures Inv(s)
  {
    var es :| Run(Initial, es) == Some(s);
    RunKeepsInv(Initial, es);
  }

  // -------------------------------------------------------------- theorems

  /**
   At most one reconcile pass is ever under way, the stored promise is that of the pass under way from
   its start until its cleanup, and at most one rotation timer is armed.
   */
  lemma SingleFlight(s: State)
    requires Reachable(s)
    ensures forall p, q :: p in s.passes && q in s.passes ==> p == q
    ensures forall p :: p in s.passes <==> s.server.repairPromise == Some(p)
    ensures forall t, u :: t in s.armed && u in s.armed ==> t == u
  {
    ReachableInv(s);
  }

  /** Settled outcomes stay, finished passes never come back, and none starts while one is under way. */
  ghost predicate Continues(s: State, s': State) {
    && s.nextPass <= s'.nextPass
    && (forall p :: p in s.outcomes ==> p in s'.outcomes && s'.outcomes[p] == s.outcomes[p])
    && (forall p :: p < s.nextPass && p !in s.passes ==> p !in s'.passes)
    && (s.server.repairPromise.Some? && s'.server.repairPromise == s.server.repairPromise ==> s'.nextPass == s.nextPass)
  }

  /** A caller's code changes that caller's record and, at most, starts a pass. */
  ghost predicate OnlyCaller(s: State, s': State, c: CallerId) {
    && (s' == s.(callers := s'.callers) || s' == RequestRepair(s, true).0.(callers := s'.callers))
    && (forall d :: d in s.callers && d != c ==> d in s'.callers && s'.callers[d] == s.callers[d])
    && (forall d :: d in s'.callers && d != c ==> d in s.callers)
  }

  lemma EnsureFrame(s: State, c: CallerId)
    requires c in s.callers && s.callers[c].progress.Ensuring?
    ensures OnlyCaller(s, EnsureStep(s, c, true), c)
  {
  }

  lemma ReactFrame(s: State, c: CallerId, looksLikeAuth: bool)
    requires c in s.callers && s.callers[c].progress.Replied?
    ensures OnlyCaller(s, ReactStep(s, c, looksLikeAuth, true), c)
  {
  }

  lemma CallerStepFrame(s: State, e: Event)
    requires e.Arrive? || e.RunEnsure? || e.ResumeEnsure? || e.Send? || e.Check? || e.React? || e.ResumeRepair?
    requires CallerStep(s, e, true).Some?
    ensures OnlyCaller(s, CallerStep(s, e, true).value, e.c)
  {
    hide EnsureStep, ReactStep, MayAnswer, RequestRepair;
    match e
    case RunEnsure(c) => EnsureFrame(s, c);
    case React(c, looksLikeAuth) => ReactFrame(s, c, looksLikeAuth);
    case _ =>
  }

  lemma PassContinues(s: State, e: Event)
    requires LockInv(s)
    requires e.AuditDone? || e.DetectDone? || e.PassFails? || e.PassCommits? || e.Cleanup?
    requires PassStep(s, e).Some?
    ensures Continues(s, PassStep(s, e).value)
  {
    hide Commit, Rearm;
  }

  lemma HostContinues(s: State, e: Event)
    requires (e.HostDeletes? || e.HostMints? || e.HostRevokes?) && HostStep(s, e).Some?
    ensures Continues(s, HostStep(s, e).value)
  {
  }

  lemma EnvironmentContinues(s: State, e: Event)
    requires LockInv(s) && (e.Tick? || e.SwapAuth? || e.Startup? || e.FireTimer?) && Step(s, e).Some?
    ensures Continues(s, Step(s, e).value)
  {
    hide CallerStep, PassStep, HostStep;
  }

  lemma CallerContinues(s: State, e: Event)
    requires LockInv(s)
    requires e.Arrive? || e.RunEnsure? || e.ResumeEnsure? || e.Send? || e.Check? || e.React? || e.ResumeRepair?
    requires CallerStep(s, e, true).Some?
    ensures Continues(s, CallerStep(s, e, true).value)
  {
    CallerStepFrame(s, e);
    hide CallerStep;
  }

  lemma StepContinues(s: State, e: Event)
    requires Inv(s) && Step(s, e).Some?
    ensures Continues(s, Step(s, e).value)
  {
    hide CallerStep, PassStep, HostStep, LockInv, TimerInv, CommitInv, TokenInv, CallerInv, Continues, RequestRepair;
    if e.Arrive? || e.RunEnsure? || e.ResumeEnsure? || e.Send? || e.Check? || e.React? || e.ResumeRepair? {
      CallerContinues(s, e);
    } else if e.AuditDone? || e.DetectDone? || e.PassFails? || e.PassCommits? || e.Cleanup? {
      PassContinues(s, e);
    } else if e.HostDeletes? || e.HostMints? || e.HostRevokes? {
      HostContinues(s, e);
    } else {
      EnvironmentContinues(s, e);
    }
  }

  /** Settled outcomes are final and passes never come back, over any continuation of a run. */
  lemma {:induction false} OutcomesAreFinal(s: State, es: seq<Event>)
    requires Inv(s) && Run(s, es).Some?
    ensures s.nextPass <= Run(s, es).value.nextPass
    ensures forall p :: p in s.outcomes ==>
                          p in Run(s, es).value.outcomes && Run(s, es).value.outcomes[p] == s.outcomes[p]
    ensures forall p :: p < s.nextPass && p !in s.passes ==> p !in Run(s, es).value.passes
    decreases |es|
  {
    hide Step;
    if es != [] {
      var next := Step(s, es[0]).value;
      StepKeepsInv(s, es[0]);
      StepContinues(s, es[0]);
      OutcomesAreFinal(next, es[1..]);
    }
  }

  /**
   While a pass is under way, however many callers, timers and startups ask for a repair, no other pass
   starts: as long as `p` has not been cleaned up the count of passes stands still.
   */
  lemma {:induction false} NoSecondPass(s: State, es: seq<Event>, p: PassId)
    requires Inv(s) && Run(s, es).Some?
    requires p in s.passes && p in Run(s, es).value.passes
    ensures Run(s, es).value.nextPass == s.nextPass
    decreases |es|
  {
    hide Step;
    if es != [] {
      var next := Step(s, es[0]).value;
      StepKeepsInv(s, es[0]);
      StepContinues(s, es[0]);
      OutcomesAreFinal(next, es[1..]);
      NoSecondPass(next, es[1..], p);
    }
  }

  /** Whoever asks for a repair while pass `p` is under way awaits `p` and starts nothing. */
  lemma EnsureJoins(s: State, c: CallerId, p: PassId)
    requires Reachable(s) && p in s.passes && c in s.callers && s.callers[c].progress.Ensuring?
    ensures EnsureStep(s, c, true) == SetCaller(s, c, AwaitingEnsure(s.callers[c].progress.attempt, p))
  {
    ReachableInv(s);
  }

  /** The caller's first try failed. */
  predicate FirstTryFailed(s: State, c: CallerId) {
    c in s.callers && s.callers[c].progress.Replied? && s.callers[c].progress.attempt == First
    && s.callers[c].progress.verdict != Accepted
  }

  lemma AuthFailureJoins(s: State, c: CallerId, p: PassId)
    requires Reachable(s) && p in s.passes && FirstTryFailed(s, c)
    ensures Step(s, React(c, true)) == Some(SetCaller(s, c, AwaitingRepair(p)))
  {
    ReachableInv(s);
  }

  /** From `s` to `t` pass `s.nextPass` has started: it is under way and its promise is the stored one. */
  predicate PassStarts(s: State, t: State) {
    && t.passes == s.passes[s.nextPass := Auditing] && t.nextPass == s.nextPass + 1
    && t.server == s.server.(repairPromise := Some(s.nextPass))
    && t.now == s.now && t.log == s.log && t.scripts == s.scripts && t.nextTimer == s.nextTimer
    && t.outcomes == s.outcomes && t.committed == s.committed
  }

  /**
   A first try that failed in a way that counts as one of authentication is always followed by a repair:
   the caller awaits a pass that is under way, the one it found or, when there was none, a new one of its own.
   */
  lemma AuthFailureRepairs(s: State, c: CallerId)
    requires Reachable(s) && FirstTryFailed(s, c)
    ensures Step(s, React(c, true)).Some?
    ensures var t := Step(s, React(c, true)).value;
            && c in t.callers && t.callers[c].progress.AwaitingRepair? && t.callers[c].progress.pass in t.passes
            && t.armed == s.armed && t.callers[c].sent == s.callers[c].sent
            && (s.server.repairPromise.None? ==>
                  && PassStarts(s, t) && t.callers[c].progress.pass == s.nextPass
                  && t.callers[c].led == s.callers[c].led + 1)
            && (s.server.repairPromise.Some? ==> t == SetCaller(s, c, AwaitingRepair(s.server.repairPromise.value)))
  {
    ReachableInv(s);
    hide CallerInv, TimerInv, CommitInv, TokenInv;
  }

  /** Every other reply ends the call: with success if it was accepted, otherwise with the failure. */
  lemma OtherRepliesEnd(s: State, c: CallerId, looksLikeAuth: bool)
    requires Step(s, React(c, looksLikeAuth)).Some?
    ensures c in s.callers && s.callers[c].progress.Replied?
    ensures s.callers[c].progress.verdict == Accepted ==> Step(s, React(c, looksLikeAuth)).value == SetCaller(s, c, Done(true))
    ensures s.callers[c].progress.verdict != Accepted && (!looksLikeAuth || s.callers[c].progress.attempt.Retry?) ==>
              Step(s, React(c, looksLikeAuth)).value == SetCaller(s, c, Done(false))
  {
  }

  /** A caller at `ensureCluster` leads a new pass exactly when none is under way and a deadline is near. */
  lemma EnsureLeads(s: State, c: CallerId)
    requires Step(s, RunEnsure(c)).Some?
    ensures c in s.callers && s.callers[c].progress.Ensuring?
    ensures var t, attempt := Step(s, RunEnsure(c)).value, s.callers[c].progress.attempt;
            var safe := HasMargin(s.server.passwordExpiresAt, s.now) && HasMargin(s.server.tokenExpiresAt, s.now);
            && (s.server.repairPromise.Some? ==> t == SetCaller(s, c, AwaitingEnsure(attempt, s.server.repairPromise.value)))
            && (s.server.repairPromise.None? && safe ==> t == SetCaller(s, c, Ready(attempt)))
            && (s.server.repairPromise.None? && !safe ==>
                  && PassStarts(s, t) && t.armed == s.armed
                  && t.callers == s.callers[c := s.callers[c].(progress := AwaitingEnsure(attempt, s.nextPass), led := s.callers[c].led + 1)])
  {
    EnsureDecides(s.server, s.now);
    hide HasMargin;
  }

  /** A timer can fire exactly once it is due; it then starts a pass unless one is under way, and so does a startup. */
  lemma TimerLeads(s: State, timer: TimerId)
    ensures Step(s, FireTimer(timer)).Some? <==> timer in s.armed && s.armed[timer] <= s.now
    ensures Step(s, FireTimer(timer)).Some? ==>
              var t := Step(s, FireTimer(timer)).value;
              && t.armed == s.armed - {timer} && t.callers == s.callers
              && (if s.server.repairPromise.None? then PassStarts(s, t) else t == s.(armed := s.armed - {timer}))
    ensures Step(s, Startup).Some?
    ensures var t := Step(s, Startup).value;
            if s.server.repairPromise.None? then PassStarts(s, t) && t.armed == s.armed && t.callers == s.callers else t == s
  {
  }

  predicate IsAwaiting(g: Progress) {
    g.AwaitingEnsure? || g.AwaitingRepair?
  }

  /**
   Nobody is stuck: every caller that has not ended can go on, unless it awaits a pass that is still under
   way, and that pass can go on, by failing if by nothing else.
   */
  lemma NobodyIsStuck(s: State, c: CallerId)
    requires Reachable(s) && c in s.callers && !s.callers[c].progress.Done?
    ensures var g := s.callers[c].progress;
            && (g.Ensuring? ==> Step(s, RunEnsure(c)).Some?)
            && (g.Ready? ==> Step(s, Send(c)).Some?)
            && (g.InFlight? ==> exists verdict :: Step(s, Check(c, verdict)).Some?)
            && (g.Replied? ==> Step(s, React(c, true)).Some?)
            && (IsAwaiting(g) && g.pass in s.outcomes ==> Step(s, ResumeEnsure(c)).Some? || Step(s, ResumeRepair(c)).Some?)
            && (IsAwaiting(g) && g.pass !in s.outcomes ==>
                  Step(s, PassFails(g.pass)).Some? || Step(s, Cleanup(g.pass)).Some?)
  {
    ReachableInv(s);
    assert CallerOk(s, s.callers[c]);
    hide EnsureStep, ReactStep, LockInv, TimerInv, CommitInv, TokenInv, HostStep, Live;
    if s.callers[c].progress.InFlight? {
      var bad := MayAnswer(s, s.callers[c].plane, s.callers[c].progress.auth, Unauthorized);
      assert Step(s, Check(c, if bad then Unauthorized else Accepted)).Some?;
    }
  }

  // ------------------------------------------------- rotation comes first

  /** Whatever `p`'s script asks for, or will ask for, is a token that expires at `expire`. */
  ghost predicate AsksFor(s: State, p: PassId, expire: int) {
    && p < s.nextPass
    && (p in s.passes ==> !s.passes[p].Auditing? && (s.passes[p].Detecting? ==> s.passes[p].expire == expire))
    && (p in s.scripts ==> s.scripts[p].expire == expire)
  }

  lemma PassKeepsExpiry(s: State, e: Event, p: PassId, expire: int)
    requires AsksFor(s, p, expire)
    requires e.AuditDone? || e.DetectDone? || e.PassFails? || e.PassCommits? || e.Cleanup?
    requires PassStep(s, e).Some?
    ensures AsksFor(PassStep(s, e).value, p, expire) && s.now <= PassStep(s, e).value.now
  {
    hide Commit, Rearm, ScriptExpire;
  }

  lemma StepKeepsExpiry(s: State, e: Event, p: PassId, expire: int)
    requires AsksFor(s, p, expire) && Step(s, e).Some?
    ensures AsksFor(Step(s, e).value, p, expire) && s.now <= Step(s, e).value.now
  {
    if e.Arrive? || e.RunEnsure? || e.ResumeEnsure? || e.Send? || e.Check? || e.React? || e.ResumeRepair? {
      CallerStepFrame(s, e);
      hide CallerStep, PassStep, HostStep;
    } else if e.AuditDone? || e.DetectDone? || e.PassFails? || e.PassCommits? || e.Cleanup? {
      PassKeepsExpiry(s, e, p, expire);
      hide CallerStep, PassStep, HostStep, AsksFor;
    } else {
      hide CallerStep, PassStep;
    }
  }

  lemma {:induction false} RunKeepsExpiry(s: State, es: seq<Event>, p: PassId, expire: int)
    requires AsksFor(s, p, expire) && Run(s, es).Some?
    ensures AsksFor(Run(s, es).value, p, expire) && s.now <= Run(s, es).value.now
    decreases |es|
  {
    if es != [] {
      StepKeepsExpiry(s, es[0], p, expire);
      hide Step, AsksFor;
      RunKeepsExpiry(Step(s, es[0]).value, es[1..], p, expire);
    }
  }

  /**
   When a pass that built its script in `s` commits, the one armed timer of the cluster is due fifteen
   minutes later. That is before the token expires exactly when no more than 300 s, less what rounding
   dropped, have passed since the script was built, whatever happened in between.
   */
  lemma RotationComesFirst(s: State, p: PassId, es: seq<Event>)
    requires Reachable(s) && Step(s, AuditDone(p)).Some? && Run(Step(s, AuditDone(p)).value, es).Some?
    requires Step(Run(Step(s, AuditDone(p)).value, es).value, PassCommits(p)).Some?
    ensures var built, before := s.now, Run(Step(s, AuditDone(p)).value, es).value;
            var t := Step(before, PassCommits(p)).value;
            && t.server.rotationTimer.Some? && t.server.tokenExpiresAt.Some?
            && t.armed == map[t.server.rotationTimer.value := before.now + 900_000]
            && (before.now + 900_000 < t.server.tokenExpiresAt.value <==> before.now - built < 300_000 - built % 1000)
  {
    var s1 := Step(s, AuditDone(p)).value;
    BuildsForExpiry(s, p);
    RunKeepsExpiry(s1, es, p, ScriptExpire(s.now));
    ReachableInv(s);
    StepKeepsInv(s, AuditDone(p));
    RunKeepsInv(s1, es);
    hide Run, Inv;
    CommitArms(Run(s1, es).value, p, s.now);
  }

  lemma BuildsForExpiry(s: State, p: PassId)
    requires Reachable(s) && Step(s, AuditDone(p)).Some?
    ensures AsksFor(Step(s, AuditDone(p)).value, p, ScriptExpire(s.now)) && Step(s, AuditDone(p)).value.now == s.now
  {
    ReachableInv(s);
    hide CallerStep, HostStep, CallerInv, TimerInv, CommitInv, TokenInv;
  }

  lemma CommitArms(s: State, p: PassId, built: nat)
    requires Inv(s) && AsksFor(s, p, ScriptExpire(built)) && built <= s.now && Step(s, PassCommits(p)).Some?
    ensures var t := Step(s, PassCommits(p)).value;
            && t.server.rotationTimer.Some? && t.server.tokenExpiresAt.Some?
            && t.armed == map[t.server.rotationTimer.value := s.now + 900_000]
            && (s.now + 900_000 < t.server.tokenExpiresAt.value <==> s.now - built < 300_000 - built % 1000)
  {
    hide CallerStep, HostStep, CallerInv, LockInv, CommitInv, TokenInv;
    RotationBeforeExpiry(s.server, s.scripts[p].minted.value, s.nextTimer, built, s.now, s.armed);
  }

  // --------------------------------------------- a repair that succeeds

  /** What happens when a refused caller's repair and retry go well. */
  function Recovery(c: CallerId, p: PassId, secret: string): seq<Event> {
    RecoveryPass(c, p, secret) + RecoveryRetry(c)
  }

  function RecoveryPass(c: CallerId, p: PassId, secret: string): seq<Event> {
    [React(c, true), AuditDone(p), DetectDone(p), HostMints(p, secret), PassCommits(p), Cleanup(p)]
  }

  function RecoveryRetry(c: CallerId): seq<Event> {
    [ResumeRepair(c), RunEnsure(c), Send(c), Check(c, Accepted), React(c, false)]
  }

  lemma {:induction false} RunConcat(s: State, es: seq<Event>, fs: seq<Event>)
    requires Run(s, es).Some?
    ensures Run(s, es + fs) == Run(Run(s, es).value, fs)
    decreases |es|
  {
    hide Step;
    if es == [] {
      assert es + fs == fs;
    } else {
      assert (es + fs)[1..] == es[1..] + fs;
      RunConcat(Step(s, es[0]).value, es[1..], fs);
    }
  }

  lemma RunFirst(s: State, e: Event, rest: seq<Event>)
    requires Step(s, e).Some?
    ensures Run(s, [e] + rest) == Run(Step(s, e).value, rest)
  {
    hide Step;
    assert ([e] + rest)[1..] == rest;
  }

  /**
   Whenever a first try fails and no pass is under way, the repair and the retry can go through: the run in
   which the pass commits and nothing interferes ends with the retry accepted, one more request sent, and
   server and host on the new token.
   */
  lemma RepairedCallSucceeds(s: State, c: CallerId, secret: string)
    requires Reachable(s) && FirstTryFailed(s, c) && s.callers[c].plane == Api && s.server.repairPromise.None?
    ensures var last := Run(s, Recovery(c, s.nextPass, secret));
            && last.Some? && c in last.value.callers
            && last.value.callers[c] == Caller(Api, Done(true), s.callers[c].sent + 1, s.callers[c].led + 1)
            && last.value.server.auth == ManagedToken(secret) && Live(last.value.log) == Some(secret)
            && last.value.server.repairPromise.None?
  {
    var p := s.nextPass;
    var t := PassGoesWell(s, c, secret);
    RetryGoesWell(t, c, p, secret);
    RunConcat(s, RecoveryPass(c, p, secret), RecoveryRetry(c));
  }

  lemma PassGoesWell(s: State, c: CallerId, secret: string) returns (t: State)
    requires Reachable(s) && FirstTryFailed(s, c) && s.server.repairPromise.None?
    ensures Run(s, RecoveryPass(c, s.nextPass, secret)) == Some(t)
    ensures c in t.callers
    ensures t.callers[c] == s.callers[c].(progress := AwaitingRepair(s.nextPass), led := s.callers[c].led + 1)
    ensures s.nextPass in t.outcomes && t.outcomes[s.nextPass] == Succeeded && t.server.repairPromise.None?
    ensures t.server.auth == ManagedToken(secret) && t.server.passwordExpiresAt == Some(t.now + ROTATION_INTERVAL_MS)
    ensures t.log != [] && t.log[|t.log| - 1] == Minted(s.nextPass, secret, ScriptExpire(t.now))
    ensures t.server.tokenExpiresAt == Some(ScriptExpire(t.now) * 1000)
  {
    var p := s.nextPass;
    AuthFailureRepairs(s, c);
    var s1 := Step(s, React(c, true)).value;
    var s3 := Builds(s1, p);
    t := Commits(s3, p, secret);
    hide Step, Reachable;
    var front, back := [AuditDone(p), DetectDone(p)], [HostMints(p, secret), PassCommits(p), Cleanup(p)];
    RunConcat(s1, front, back);
    RunFirst(s, React(c, true), front + back);
    assert [React(c, true)] + (front + back) == RecoveryPass(c, p, secret);
  }

  lemma Builds(s1: State, p: PassId) returns (s3: State)
    requires p in s1.passes && s1.passes[p].Auditing?
    ensures Run(s1, [AuditDone(p), DetectDone(p)]) == Some(s3)
    ensures s3 == s1.(passes := s1.passes[p := Executing], scripts := s1.scripts[p := Script(ScriptExpire(s1.now), None)])
  {
    hide CallerStep, HostStep, ScriptExpire;
    var s2 := Step(s1, AuditDone(p)).value;
    s3 := Step(s2, DetectDone(p)).value;
    assert s2.passes[p := Executing] == s1.passes[p := Executing];
    RunNothing(s3);
    RunFirst(s2, DetectDone(p), []);
    RunFirst(s1, AuditDone(p), [DetectDone(p)]);
    hide Run, Step, PassStep;
    assert [DetectDone(p)] + [] == [DetectDone(p)];
    assert [AuditDone(p)] + [DetectDone(p)] == [AuditDone(p), DetectDone(p)];
  }

  lemma Commits(s3: State, p: PassId, secret: string) returns (t: State)
    requires p in s3.passes && s3.passes[p].Executing? && p in s3.scripts && s3.scripts[p] == Script(ScriptExpire(s3.now), None)
    ensures Run(s3, [HostMints(p, secret), PassCommits(p), Cleanup(p)]) == Some(t)
    ensures t.callers == s3.callers && t.now == s3.now && t.log == s3.log + [Minted(p, secret, ScriptExpire(s3.now))]
    ensures p in t.outcomes && t.outcomes[p] == Succeeded && t.server.repairPromise.None?
    ensures t.server.auth == ManagedToken(secret) && t.server.passwordExpiresAt == Some(t.now + ROTATION_INTERVAL_MS)
    ensures t.server.tokenExpiresAt == Some(ScriptExpire(t.now) * 1000)
  {
    hide CallerStep, ScriptExpire, Rearm;
    var s4 := Step(s3, HostMints(p, secret)).value;
    var s5 := Step(s4, PassCommits(p)).value;
    t := Step(s5, Cleanup(p)).value;
    RunNothing(t);
    RunFirst(s5, Cleanup(p), []);
    RunFirst(s4, PassCommits(p), [Cleanup(p)]);
    RunFirst(s3, HostMints(p, secret), [PassCommits(p), Cleanup(p)]);
    hide Run, Step, PassStep, HostStep;
    assert [Cleanup(p)] + [] == [Cleanup(p)];
    assert [PassCommits(p)] + [Cleanup(p)] == [PassCommits(p), Cleanup(p)];
    assert [HostMints(p, secret)] + [PassCommits(p), Cleanup(p)] == [HostMints(p, secret), PassCommits(p), Cleanup(p)];
  }

  lemma RetryGoesWell(t: State, c: CallerId, p: PassId, secret: string)
    requires c in t.callers && t.callers[c].progress == AwaitingRepair(p) && t.callers[c].plane == Api
    requires p in t.outcomes && t.outcomes[p] == Succeeded && t.server.repairPromise.None?
    requires t.server.auth == ManagedToken(secret) && t.server.passwordExpiresAt == Some(t.now + ROTATION_INTERVAL_MS)
    requires t.log != [] && t.log[|t.log| - 1] == Minted(p, secret, ScriptExpire(t.now))
    requires t.server.tokenExpiresAt == Some(ScriptExpire(t.now) * 1000)
    ensures Run(t, RecoveryRetry(c))
            == Some(t.(callers := t.callers[c := Caller(Api, Done(true), t.callers[c].sent + 1, t.callers[c].led)]))
  {
    var caller := t.callers[c];
    var t1 := SetCaller(t, c, Ensuring(Retry(p)));
    var t2 := SetCaller(t1, c, Ready(Retry(p)));
    var flying := caller.(progress := InFlight(Retry(p), t.server.auth), sent := caller.sent + 1);
    var t3 := t.(callers := t.callers[c := flying]);
    var t4 := SetCaller(t3, c, Replied(Retry(p), Accepted));
    var t5 := SetCaller(t4, c, Done(true));
    assert Step(t, ResumeRepair(c)) == Some(t1);
    FreshDeadlines(t1, c, p);
    assert t2.callers[c := flying] == t3.callers;
    assert Step(t2, Send(c)) == Some(t3);
    assert Step(t3, Check(c, Accepted)) == Some(t4);
    assert Step(t4, React(c, false)) == Some(t5);
    assert t5.callers == t.callers[c := Caller(Api, Done(true), caller.sent + 1, caller.led)];
    RetryChain(t, t1, t2, t3, t4, t5, c);
  }

  lemma RetryChain(t: State, t1: State, t2: State, t3: State, t4: State, t5: State, c: CallerId)
    requires Step(t, ResumeRepair(c)) == Some(t1) && Step(t1, RunEnsure(c)) == Some(t2) && Step(t2, Send(c)) == Some(t3)
    requires Step(t3, Check(c, Accepted)) == Some(t4) && Step(t4, React(c, false)) == Some(t5)
    ensures Run(t, RecoveryRetry(c)) == Some(t5)
  {
    hide Step;
    RunNothing(t5);
    RunFirst(t4, React(c, false), []);
    RunFirst(t3, Check(c, Accepted), [React(c, false)]);
    RunFirst(t2, Send(c), [Check(c, Accepted), React(c, false)]);
    RunFirst(t1, RunEnsure(c), [Send(c), Check(c, Accepted), React(c, false)]);
    RunFirst(t, ResumeRepair(c), [RunEnsure(c), Send(c), Check(c, Accepted), React(c, false)]);
    hide Run;
    assert [React(c, false)] + [] == [React(c, false)];
    assert [ResumeRepair(c)] + [RunEnsure(c), Send(c), Check(c, Accepted), React(c, false)] == RecoveryRetry(c);
  }

  /** Right after a commit both deadlines are far enough away. */
  lemma FreshDeadlines(t1: State, c: CallerId, p: PassId)
    requires c in t1.callers && t1.callers[c].progress == Ensuring(Retry(p)) && t1.server.repairPromise.None?
    requires t1.server.passwordExpiresAt == Some(t1.now + ROTATION_INTERVAL_MS)
    requires t1.server.tokenExpiresAt == Some(ScriptExpire(t1.now) * 1000)
    ensures Step(t1, RunEnsure(c)) == Some(SetCaller(t1, c, Ready(Retry(p))))
  {
    assert t1.now == t1.now / 1000 * 1000 + t1.now % 1000;
    assert Ensure(t1.server, t1.now) == Skip;
  }

  predicate Awaits(g: Progress, p: PassId) {
    (g.AwaitingEnsure? || g.AwaitingRepair?) && g.pass == p
  }

  predicate ResumedWith(g: Progress, before: Progress, outcome: Outcome)
    requires before.AwaitingEnsure? || before.AwaitingRepair?
  {
    match outcome
    case Failed => g == Done(false)
    case Succeeded => g == if before.AwaitingEnsure? then Ready(before.attempt) else Ensuring(Retry(before.pass))
  }

  /** At some point of the run the caller has just resumed from its await with `outcome`. */
  ghost predicate Resumes(s: State, es: seq<Event>, c: CallerId, outcome: Outcome)
    requires c in s.callers && (s.callers[c].progress.AwaitingEnsure? || s.callers[c].progress.AwaitingRepair?)
  {
    exists i: nat ::
      && 0 < i <= |es| && Run(s, es[..i]).Some? && c in Run(s, es[..i]).value.callers
      && ResumedWith(Run(s, es[..i]).value.callers[c].progress, s.callers[c].progress, outcome)
  }

  lemma ResumesLater(s: State, es: seq<Event>, c: CallerId, outcome: Outcome)
    requires c in s.callers && (s.callers[c].progress.AwaitingEnsure? || s.callers[c].progress.AwaitingRepair?)
    requires es != [] && Step(s, es[0]).Some?
    requires c in Step(s, es[0]).value.callers && Step(s, es[0]).value.callers[c] == s.callers[c]
    requires Resumes(Step(s, es[0]).value, es[1..], c, outcome)
    ensures Resumes(s, es, c, outcome)
  {
    hide Step, ResumedWith;
    var next, rest := Step(s, es[0]).value, es[1..];
    var i: nat :| 0 < i <= |rest| && Run(next, rest[..i]).Some? && c in Run(next, rest[..i]).value.callers
                  && ResumedWith(Run(next, rest[..i]).value.callers[c].progress, next.callers[c].progress, outcome);
    assert es[..i + 1][1..] == rest[..i];
    assert Run(s, es[..i + 1]) == Run(next, rest[..i]);
  }

  /** A waiting caller changes in one way only: it resumes with the outcome of the pass it awaits. */
  lemma WaiterSteps(s: State, e: Event, c: CallerId, p: PassId)
    requires Step(s, e).Some? && c in s.callers && Awaits(s.callers[c].progress, p)
    ensures var next := Step(s, e).value;
            c in next.callers
            && (next.callers[c] == s.callers[c]
                || (p in s.outcomes && ResumedWith(next.callers[c].progress, s.callers[c].progress, s.outcomes[p])))
  {
    if e.Arrive? || e.RunEnsure? || e.ResumeEnsure? || e.Send? || e.Check? || e.React? || e.ResumeRepair? {
      hide EnsureStep, ReactStep, MayAnswer, RequestRepair, HostStep, PassStep;
      CallerStepFrame(s, e);
    } else {
      hide CallerStep;
    }
  }

  /**
   All callers awaiting a pass get that pass's outcome: over any run, a caller that awaited `p` either
   still does, or resumed at some point with exactly the outcome `p` ended with.
   */
  lemma {:induction false} WaitersShareTheOutcome(s: State, es: seq<Event>, c: CallerId, p: PassId)
    requires Inv(s) && Run(s, es).Some? && c in s.callers && Awaits(s.callers[c].progress, p)
    ensures var last := Run(s, es).value;
            (c in last.callers && last.callers[c] == s.callers[c])
            || (p in last.outcomes && Resumes(s, es, c, last.outcomes[p]))
    decreases |es|
  {
    hide Step, Inv;
    if es != [] {
      var next := Step(s, es[0]).value;
      StepKeepsInv(s, es[0]);
      StepContinues(s, es[0]);
      WaiterSteps(s, es[0], c, p);
      OutcomesAreFinal(next, es[1..]);
      if next.callers[c] == s.callers[c] {
        WaitersShareTheOutcome(next, es[1..], c, p);
        var last := Run(s, es).value;
        if !(c in last.callers && last.callers[c] == s.callers[c]) {
          ResumesLater(s, es, c, last.outcomes[p]);
        }
      } else {
        assert es[..1][1..] == [];
        assert Run(next, []) == Some(next);
        assert Run(s, es[..1]) == Some(next);
        assert Resumes(s, es, c, s.outcomes[p]);
      }
    }
  }

  /**
   Server and host agree. If the last thing that happened to the host's token is a mint by a pass that
   has committed (nothing revoked it, no pass minted or deleted without committing) and nothing outside
   has replaced `cluster.auth`, then `cluster.auth` carries exactly the token the host accepts.
   */
  lemma ServerAndHostAgree(s: State, p: PassId)
    requires Reachable(s) && LastMintedBy(s, p) && p in s.committed && !s.server.auth.OutsideToken?
    ensures Live(s.log).Some? && s.server.auth == ManagedToken(Live(s.log).value)
    ensures s.server.tokenExpiresAt == Some(s.log[|s.log| - 1].expire * 1000)
  {
    ReachableInv(s);
  }

  // ------------------------------------------------- when they agree

  /** The log holds the mint of this secret by a pass. */
  ghost predicate MintedIn(log: seq<HostEvent>, p: PassId, secret: string) {
    exists i :: 0 <= i < |log| && log[i].Minted? && log[i].pass == p && log[i].secret == secret
  }

  /** Secrets that scripts hold were minted; the server's was minted by a pass that has committed. */
  ghost predicate MintInv(s: State) {
    && (forall p :: p in s.scripts && s.scripts[p].minted.Some? ==> MintedIn(s.log, p, s.scripts[p].minted.value))
    && (s.server.auth.ManagedToken? ==> exists p :: p in s.committed && MintedIn(s.log, p, s.server.auth.secret))
  }

  lemma LogGrows(log: seq<HostEvent>, e: HostEvent)
    ensures forall p, secret :: MintedIn(log, p, secret) ==> MintedIn(log + [e], p, secret)
    ensures e.Minted? ==> MintedIn(log + [e], e.pass, e.secret)
  {
    forall p, secret | MintedIn(log, p, secret) ensures MintedIn(log + [e], p, secret) {
      var i :| 0 <= i < |log| && log[i].Minted? && log[i].pass == p && log[i].secret == secret;
      assert (log + [e])[i] == log[i];
    }
    assert (log + [e])[|log|] == e;
  }

  lemma HostKeepsMints(s: State, e: Event)
    requires MintInv(s) && (e.HostDeletes? || e.HostMints? || e.HostRevokes?) && HostStep(s, e).Some?
    ensures MintInv(HostStep(s, e).value)
  {
    var next := HostStep(s, e).value;
    LogGrows(s.log, next.log[|s.log|]);
    assert next.log == s.log + [next.log[|s.log|]];
    hide MintedIn;
  }

  lemma PassKeepsMints(s: State, e: Event)
    requires MintInv(s) && (e.AuditDone? || e.DetectDone? || e.PassFails? || e.PassCommits? || e.Cleanup?)
    requires PassStep(s, e).Some?
    ensures MintInv(PassStep(s, e).value)
  {
    hide MintedIn, Rearm;
  }

  /** What a caller's code does, and the environment, touches neither scripts nor commits nor the log. */
  lemma SameMints(s: State, t: State)
    requires MintInv(s) && t.log == s.log && t.scripts == s.scripts && s.committed == t.committed
    requires t.server.auth == s.server.auth || t.server.auth.OutsideToken?
    ensures MintInv(t)
  {
    hide MintedIn;
  }

  lemma CallerKeepsMints(s: State, e: Event)
    requires MintInv(s)
    requires e.Arrive? || e.RunEnsure? || e.ResumeEnsure? || e.Send? || e.Check? || e.React? || e.ResumeRepair?
    requires CallerStep(s, e, true).Some?
    ensures MintInv(CallerStep(s, e, true).value)
  {
    CallerStepFrame(s, e);
    hide CallerStep, MintInv;
    SameMints(s, CallerStep(s, e, true).value);
  }

  lemma EnvironmentKeepsMints(s: State, e: Event)
    requires MintInv(s) && (e.Tick? || e.SwapAuth? || e.Startup? || e.FireTimer?) && Step(s, e).Some?
    ensures MintInv(Step(s, e).value)
  {
    hide CallerStep, PassStep, HostStep, MintInv;
    SameMints(s, Step(s, e).value);
  }

  lemma StepKeepsMints(s: State, e: Event)
    requires MintInv(s) && Step(s, e).Some?
    ensures MintInv(Step(s, e).value)
  {
    hide CallerStep, PassStep, HostStep, MintInv, RequestRepair;
    if e.HostDeletes? || e.HostMints? || e.HostRevokes? {
      HostKeepsMints(s, e);
    } else if e.AuditDone? || e.DetectDone? || e.PassFails? || e.PassCommits? || e.Cleanup? {
      PassKeepsMints(s, e);
    } else if e.Tick? || e.SwapAuth? || e.Startup? || e.FireTimer? {
      EnvironmentKeepsMints(s, e);
    } else {
      CallerKeepsMints(s, e);
    }
  }

  lemma {:induction false} RunKeepsMints(s: State, es: seq<Event>)
    requires MintInv(s) && Run(s, es).Some?
    ensures MintInv(Run(s, es).value)
    decreases |es|
  {
    if es != [] {
      StepKeepsMints(s, es[0]);
      hide Step, MintInv;
      RunKeepsMints(Step(s, es[0]).value, es[1..]);
    }
  }

  /** No secret is minted twice. */
  predicate DistinctSecrets(log: seq<HostEvent>) {
    forall i, j :: 0 <= i < j < |log| && log[i].Minted? && log[j].Minted? ==> log[i].secret != log[j].secret
  }

  /**
   Exactly when they agree: the server uses the token that is live on the host if and only if the last
   thing that happened to the host's token is a mint by a pass that has committed, and nothing outside has
   replaced the server's credentials.
   */
  lemma AgreeExactly(s: State)
    requires Reachable(s) && DistinctSecrets(s.log)
    ensures (Live(s.log).Some? && s.server.auth == ManagedToken(Live(s.log).value))
            <==> ((exists p :: p in s.committed && LastMintedBy(s, p)) && !s.server.auth.OutsideToken?)
  {
    if p :| p in s.committed && LastMintedBy(s, p) && !s.server.auth.OutsideToken? {
      ServerAndHostAgree(s, p);
    }
    if Live(s.log).Some? && s.server.auth == ManagedToken(Live(s.log).value) {
      var es :| Run(Initial, es) == Some(s);
      RunKeepsMints(Initial, es);
      var p :| p in s.committed && MintedIn(s.log, p, s.server.auth.secret);
      var i :| 0 <= i < |s.log| && s.log[i].Minted? && s.log[i].pass == p && s.log[i].secret == s.server.auth.secret;
      assert i == |s.log| - 1;
      assert LastMintedBy(s, p);
    }
  }

  const LOST: seq<Event> := [
    Startup, AuditDone(0), DetectDone(0), PassFails(0), Cleanup(0), Startup, AuditDone(1), DetectDone(1),
    HostMints(1, "a"), PassCommits(1), Cleanup(1), HostDeletes(0)]

  /**
   The lock alone does not make them agree: the script of a pass that lost its connection outlives the
   pass, and its deletion of the old token can fall after the next pass has minted and committed.
   */
  lemma LostScriptKillsToken()
    ensures Run(Initial, LOST).Some?
    ensures var s := Run(Initial, LOST).value;
            && s.outcomes == map[0 := Failed, 1 := Succeeded] && s.committed == {1} && s.passes == map[]
            && s.server.auth == ManagedToken("a") && Live(s.log) == None
  {
    var s5 := LostPass();
    var s8 := SecondPassStarts(s5);
    SecondPassEnds(s8);
    assert LOST[0..] == LOST;
  }

  lemma LostStep(s: State, i: nat)
    requires i < |LOST| && Step(s, LOST[i]).Some?
    ensures Run(s, LOST[i..]) == Run(Step(s, LOST[i]).value, LOST[i + 1..])
  {
    assert LOST[i..][1..] == LOST[i + 1..];
    hide Step;
  }

  lemma LostPass() returns (s5: State)
    ensures Run(Initial, LOST[0..]) == Run(s5, LOST[5..])
    ensures s5.passes == map[] && s5.nextPass == 1 && s5.server == Initial.server
    ensures s5.outcomes == map[0 := Failed] && s5.committed == {} && s5.log == []
    ensures s5.scripts.Keys == {0} && s5.scripts[0].minted.None?
  {
    hide Run, CallerStep, HostStep, PassStep, ScriptExpire;
    var s1 := Step(Initial, Startup).value;
    LostStep(Initial, 0);
    var s3 := LostScript(s1);
    s5 := LostCleanup(s3);
  }

  lemma LostScript(s1: State) returns (s3: State)
    requires s1.passes == map[0 := Auditing] && s1.scripts == map[]
    ensures Run(s1, LOST[1..]) == Run(s3, LOST[3..])
    ensures s3 == s1.(passes := s3.passes, scripts := s3.scripts) && s3.passes == map[0 := Executing]
    ensures s3.scripts.Keys == {0} && s3.scripts[0].minted.None?
  {
    hide Run, CallerStep, HostStep, ScriptExpire;
    var s2 := Step(s1, AuditDone(0)).value;
    LostStep(s1, 1);
    s3 := Step(s2, DetectDone(0)).value;
    LostStep(s2, 2);
  }

  lemma LostCleanup(s3: State) returns (s5: State)
    requires s3.passes == map[0 := Executing] && s3.outcomes == map[]
    ensures Run(s3, LOST[3..]) == Run(s5, LOST[5..])
    ensures s5 == s3.(passes := map[], outcomes := map[0 := Failed], server := s3.server.(repairPromise := None))
  {
    hide Run, CallerStep, HostStep, ScriptExpire;
    var s4 := Step(s3, PassFails(0)).value;
    LostStep(s3, 3);
    s5 := Step(s4, Cleanup(0)).value;
    LostStep(s4, 4);
  }

  lemma SecondPassStarts(s5: State) returns (s8: State)
    requires s5.passes == map[] && s5.nextPass == 1 && s5.server == Initial.server
    requires s5.scripts.Keys == {0} && s5.scripts[0].minted.None?
    ensures Run(s5, LOST[5..]) == Run(s8, LOST[8..])
    ensures s8.passes == map[1 := Executing] && s8.outcomes == s5.outcomes && s8.committed == s5.committed && s8.log == s5.log
    ensures s8.scripts.Keys == {0, 1} && s8.scripts[0].minted.None? && s8.scripts[1].minted.None?
  {
    hide Run, CallerStep, HostStep, PassStep, ScriptExpire;
    var s6 := Step(s5, Startup).value;
    LostStep(s5, 5);
    s8 := SecondScript(s6);
  }

  lemma SecondScript(s6: State) returns (s8: State)
    requires s6.passes == map[1 := Auditing] && s6.scripts.Keys == {0} && s6.scripts[0].minted.None?
    ensures Run(s6, LOST[6..]) == Run(s8, LOST[8..])
    ensures s8.passes == map[1 := Executing] && s8.outcomes == s6.outcomes && s8.committed == s6.committed && s8.log == s6.log
    ensures s8.scripts.Keys == {0, 1} && s8.scripts[0].minted.None? && s8.scripts[1].minted.None?
  {
    hide Run, CallerStep, HostStep, ScriptExpire;
    var s7 := Step(s6, AuditDone(1)).value;
    LostStep(s6, 6);
    s8 := Step(s7, DetectDone(1)).value;
    LostStep(s7, 7);
  }

  lemma SecondPassEnds(s8: State)
    requires s8.passes == map[1 := Executing] && s8.scripts.Keys == {0, 1}
    requires s8.scripts[0].minted.None? && s8.scripts[1].minted.None?
    requires s8.outcomes == map[0 := Failed] && s8.committed == {} && s8.log == []
    ensures Run(s8, LOST[8..]).Some?
    ensures var s := Run(s8, LOST[8..]).value;
            && s.outcomes == map[0 := Failed, 1 := Succeeded] && s.committed == {1} && s.passes == map[]
            && s.server.auth == ManagedToken("a") && Live(s.log) == None
  {
    hide Run, CallerStep, PassStep, Rearm;
    var s9 := Step(s8, HostMints(1, "a")).value;
    LostStep(s8, 8);
    var s10 := SecondCommits(s9);
    LateDeletion(s10);
  }

  lemma SecondCommits(s9: State) returns (s10: State)
    requires s9.passes == map[1 := Executing] && s9.scripts.Keys == {0, 1} && s9.scripts[1].minted == Some("a")
    requires s9.committed == {}
    ensures Run(s9, LOST[9..]) == Run(s10, LOST[10..])
    ensures s10.passes == map[1 := Settled(Succeeded)] && s10.committed == {1} && s10.server.auth == ManagedToken("a")
    ensures s10.scripts == s9.scripts && s10.outcomes == s9.outcomes && s10.log == s9.log
  {
    hide Run, CallerStep, HostStep, Rearm;
    s10 := Step(s9, PassCommits(1)).value;
    LostStep(s9, 9);
  }

  lemma LateDeletion(s10: State)
    requires s10.passes == map[1 := Settled(Succeeded)] && s10.committed == {1} && s10.server.auth == ManagedToken("a")
    requires s10.scripts.Keys == {0, 1} && s10.scripts[0].minted.None? && s10.outcomes == map[0 := Failed]
    ensures Run(s10, LOST[10..]).Some?
    ensures var s := Run(s10, LOST[10..]).value;
            && s.outcomes == map[0 := Failed, 1 := Succeeded] && s.committed == {1} && s.passes == map[]
            && s.server.auth == ManagedToken("a") && Live(s.log) == None
  {
    hide Run, CallerStep;
    var s11 := Step(s10, Cleanup(1)).value;
    LostStep(s10, 10);
    var s12 := Step(s11, HostDeletes(0)).value;
    LostStep(s11, 11);
    RunNothing(s12);
    assert LOST[12..] == [];
  }

  lemma RunNothing(s: State)
    ensures Run(s, []) == Some(s)
  {
  }

  const OVERLAP: seq<Event> := [
    Startup, Startup, AuditDone(0), AuditDone(1), DetectDone(0), DetectDone(1),
    HostMints(0, "old"), HostMints(1, "new"), PassCommits(1), PassCommits(0)]

  /** The lock is what makes them agree: without it two overlapping passes commit the older token last. */
  lemma LockIsNeeded()
    ensures Run(Initial, OVERLAP, false).Some?
    ensures var s := Run(Initial, OVERLAP, false).value;
            LastMintedBy(s, 1) && {0, 1} <= s.committed && !s.server.auth.OutsideToken?
            && s.server.auth == ManagedToken("old") && Live(s.log) == Some("new")
  {
    var s2 := Step(Step(Initial, Startup, false).value, Startup, false).value;
    RunStep(Initial, 0);
    RunStep(Step(Initial, Startup, false).value, 1);
    var s6 := OverlapScripts(s2);
    OverlapCommits(s6);
    assert OVERLAP[0..] == OVERLAP;
  }

  lemma OverlapScripts(s2: State) returns (s6: State)
    requires s2.passes == map[0 := Auditing, 1 := Auditing] && s2.scripts == map[]
    ensures Run(s2, OVERLAP[2..], false) == Run(s6, OVERLAP[6..], false)
    ensures s6.passes == map[0 := Executing, 1 := Executing]
    ensures s6.scripts.Keys == {0, 1} && s6.scripts[0].minted.None? && s6.scripts[1].minted.None?
  {
    hide Run, RequestRepair, HostStep, CallerStep, ScriptExpire;
    var s3 := Step(s2, AuditDone(0), false).value;
    RunStep(s2, 2);
    var s4 := Step(s3, AuditDone(1), false).value;
    RunStep(s3, 3);
    s6 := OverlapDetects(s4);
  }

  lemma OverlapDetects(s4: State) returns (s6: State)
    requires s4.passes.Keys == {0, 1} && s4.passes[0].Detecting? && s4.passes[1].Detecting? && s4.scripts == map[]
    ensures Run(s4, OVERLAP[4..], false) == Run(s6, OVERLAP[6..], false)
    ensures s6.passes == map[0 := Executing, 1 := Executing]
    ensures s6.scripts.Keys == {0, 1} && s6.scripts[0].minted.None? && s6.scripts[1].minted.None?
  {
    hide Run, RequestRepair, HostStep, CallerStep;
    var s5 := Step(s4, DetectDone(0), false).value;
    RunStep(s4, 4);
    s6 := Step(s5, DetectDone(1), false).value;
    RunStep(s5, 5);
  }

  lemma OverlapCommits(s6: State)
    requires s6.passes == map[0 := Executing, 1 := Executing]
    requires s6.scripts.Keys == {0, 1} && s6.scripts[0].minted.None? && s6.scripts[1].minted.None?
    ensures Run(s6, OVERLAP[6..], false).Some?
    ensures var s := Run(s6, OVERLAP[6..], false).value;
            LastMintedBy(s, 1) && {0, 1} <= s.committed
            && s.server.auth == ManagedToken("old") && Live(s.log) == Some("new")
  {
    hide RequestRepair, CallerStep, Rearm, PassStep, Run;
    var s7 := Step(s6, HostMints(0, "old"), false).value;
    RunStep(s6, 6);
    var s8 := Step(s7, HostMints(1, "new"), false).value;
    RunStep(s7, 7);
    OverlapEnds(s8);
  }

  lemma OverlapEnds(s8: State)
    requires s8.passes == map[0 := Executing, 1 := Executing] && s8.scripts.Keys == {0, 1}
    requires s8.scripts[0].minted == Some("old") && s8.scripts[1].minted == Some("new")
    requires LastMintedBy(s8, 1) && Live(s8.log) == Some("new")
    ensures Run(s8, OVERLAP[8..], false).Some?
    ensures var s := Run(s8, OVERLAP[8..], false).value;
            s.log == s8.log && {0, 1} <= s.committed && s.server.auth == ManagedToken("old")
  {
    hide RequestRepair, CallerStep, Rearm, HostStep;
    var s9 := Step(s8, PassCommits(1), false).value;
    RunStep(s8, 8);
    RunStep(s9, 9);
    assert OVERLAP[10..] == [];
  }

  lemma RunStep(s: State, i: nat)
    requires i < |OVERLAP| && Step(s, OVERLAP[i], false).Some?
    ensures Run(s, OVERLAP[i..], false) == Run(Step(s, OVERLAP[i], false).value, OVERLAP[i + 1..], false)
  {
    assert OVERLAP[i..][1..] == OVERLAP[i + 1..];
  }

  /** One call sends at most two requests and starts at most three passes, whatever else goes on. */
  lemma CallIsBounded(s: State, c: CallerId)
    requires Reachable(s) && c in s.callers
    ensures s.callers[c].sent <= 2 && s.callers[c].led <= 3
    ensures s.callers[c].sent == 2 && HasAttempt(s.callers[c].progress) ==> s.callers[c].progress.attempt.Retry?
  {
    ReachableInv(s);
    assert CallerOk(s, s.callers[c]);
  }

  /** The caller's next request has been cleared by `ensureCluster` and is not sent yet. */
  predicate Cleared(s: State, c: CallerId) {
    c in s.callers && (s.callers[c].progress.AwaitingEnsure? || s.callers[c].progress.Ready?)
  }

  /** How often `e` happens in a run. */
  function Count(es: seq<Event>, e: Event): nat {
    if es == [] then 0 else (if es[0] == e then 1 else 0) + Count(es[1..], e)
  }

  lemma ClearedOwnStep(s: State, e: Event)
    requires e.Arrive? || e.RunEnsure? || e.ResumeEnsure? || e.Send? || e.Check? || e.React? || e.ResumeRepair?
    requires CallerStep(s, e, true).Some?
    ensures Cleared(CallerStep(s, e, true).value, e.c) && !e.RunEnsure? ==> Cleared(s, e.c)
    ensures e.Send? ==> Cleared(s, e.c) && !Cleared(CallerStep(s, e, true).value, e.c)
  {
    hide RequestRepair, MayAnswer, Ensure;
    match e
    case RunEnsure(_) =>
    case React(_, _) =>
    case _ => hide EnsureStep, ReactStep;
  }

  lemma ClearedStep(s: State, e: Event, c: CallerId)
    requires Step(s, e).Some?
    ensures Cleared(Step(s, e).value, c) && e != RunEnsure(c) ==> Cleared(s, c)
    ensures e == Send(c) ==> Cleared(s, c) && !Cleared(Step(s, e).value, c)
  {
    if e.Arrive? || e.RunEnsure? || e.ResumeEnsure? || e.Send? || e.Check? || e.React? || e.ResumeRepair? {
      if e.c == c {
        ClearedOwnStep(s, e);
        hide CallerStep;
      } else {
        CallerStepFrame(s, e);
        hide CallerStep;
      }
    } else {
      OtherStepFrame(s, e);
      hide PassStep, HostStep, CallerStep;
    }
  }

  lemma OtherStepFrame(s: State, e: Event)
    requires !(e.Arrive? || e.RunEnsure? || e.ResumeEnsure? || e.Send? || e.Check? || e.React? || e.ResumeRepair?)
    requires Step(s, e).Some?
    ensures Step(s, e).value.callers == s.callers
  {
    hide CallerStep;
  }

  lemma {:induction false} ClearedBefore(s: State, es: seq<Event>, c: CallerId)
    requires Run(s, es).Some?
    ensures Count(es, Send(c)) + (if Cleared(Run(s, es).value, c) then 1 else 0)
            <= Count(es, RunEnsure(c)) + (if Cleared(s, c) then 1 else 0)
    decreases |es|
  {
    if es != [] {
      ClearedStep(s, es[0], c);
      hide Step, Cleared;
      ClearedBefore(Step(s, es[0]).value, es[1..], c);
    }
  }

  /**
   No request goes out unchecked: in every run a call has sent at most as many requests, the first try
   and the retry alike, as it has gone through `ensureCluster` before.
   */
  lemma EveryRequestIsEnsured(es: seq<Event>, c: CallerId)
    requires Run(Initial, es).Some?
    ensures Count(es, Send(c)) <= Count(es, RunEnsure(c))
  {
    ClearedBefore(Initial, es, c);
  }

  /** The call has had its request accepted, and is done or about to be. */
  predicate WasAccepted(s: State, c: CallerId) {
    c in s.callers && match s.callers[c].progress
                      case Replied(_, verdict) => verdict == Accepted
                      case Done(success) => success
                      case _ => false
  }

  lemma AcceptedOwnStep(s: State, e: Event)
    requires e.Arrive? || e.RunEnsure? || e.ResumeEnsure? || e.Send? || e.Check? || e.React? || e.ResumeRepair?
    requires CallerStep(s, e, true).Some?
    ensures WasAccepted(CallerStep(s, e, true).value, e.c)
            <==> WasAccepted(s, e.c) || (e.Check? && e.verdict == Accepted)
  {
    hide RequestRepair, MayAnswer, Ensure;
    match e
    case RunEnsure(_) =>
    case React(_, _) =>
    case _ => hide EnsureStep, ReactStep;
  }

  lemma AcceptedStep(s: State, e: Event, c: CallerId)
    requires Step(s, e).Some?
    ensures WasAccepted(Step(s, e).value, c) <==> WasAccepted(s, c) || e == Check(c, Accepted)
  {
    if e.Arrive? || e.RunEnsure? || e.ResumeEnsure? || e.Send? || e.Check? || e.React? || e.ResumeRepair? {
      if e.c == c {
        AcceptedOwnStep(s, e);
        hide CallerStep;
      } else {
        CallerStepFrame(s, e);
        hide CallerStep;
      }
    } else {
      OtherStepFrame(s, e);
      hide PassStep, HostStep, CallerStep;
    }
  }

  lemma {:induction false} AcceptedBefore(s: State, es: seq<Event>, c: CallerId)
    requires Run(s, es).Some?
    ensures WasAccepted(Run(s, es).value, c) <==> WasAccepted(s, c) || Check(c, Accepted) in es
    decreases |es|
  {
    if es != [] {
      AcceptedStep(s, es[0], c);
      hide Step, WasAccepted;
      AcceptedBefore(Step(s, es[0]).value, es[1..], c);
      assert es == [es[0]] + es[1..];
    }
  }

  /** In every run a finished call succeeded if and only if the host accepted a request of it. */
  lemma SuccessIffAccepted(es: seq<Event>, c: CallerId)
    requires Run(Initial, es).Some?
    requires c in Run(Initial, es).value.callers && Run(Initial, es).value.callers[c].progress.Done?
    ensures Run(Initial, es).value.callers[c].progress.success <==> Check(c, Accepted) in es
  {
    AcceptedBefore(Initial, es, c);
  }

  /**
   The retry after a repair by pass `p` is not answered 401 before the token expires, as long as the
   mint by `p` is still the last thing that happened to the host's token when the host checks.
   */
  lemma RetryIsAccepted(s: State, c: CallerId, p: PassId, verdict: Verdict)
    requires Reachable(s) && c in s.callers && s.callers[c].plane == Api
    requires s.callers[c].progress.InFlight? && s.callers[c].progress.attempt == Retry(p)
    requires !s.callers[c].progress.auth.OutsideToken?
    requires LastMintedBy(s, p) && s.now < s.log[|s.log| - 1].expire * 1000
    requires Step(s, Check(c, verdict)).Some?
    ensures verdict != Unauthorized
    ensures s.callers[c].progress.auth == ManagedToken(Live(s.log).value)
  {
    ReachableInv(s);
    assert CallerOk(s, s.callers[c]);
  }

  lemma OnlyCheckEndsFlight(s: State, e: Event, c: CallerId)
    requires Step(s, e).Some? && c in s.callers && s.callers[c].progress.InFlight?
    requires !(e.Check? && e.c == c)
    ensures c in Step(s, e).value.callers && Step(s, e).value.callers[c] == s.callers[c]
  {
    if e.Arrive? || e.RunEnsure? || e.ResumeEnsure? || e.Send? || e.Check? || e.React? || e.ResumeRepair? {
      hide EnsureStep, ReactStep, MayAnswer, RequestRepair, HostStep, PassStep;
      CallerStepFrame(s, e);
    } else {
      hide CallerStep;
    }
  }

  /** A request in flight keeps the credentials it was sent with until the host has checked them. */
  lemma {:induction false} InFlightIsFrozen(s: State, es: seq<Event>, c: CallerId)
    requires Run(s, es).Some? && c in s.callers && s.callers[c].progress.InFlight?
    requires forall e :: e in es ==> !(e.Check? && e.c == c)
    ensures c in Run(s, es).value.callers && Run(s, es).value.callers[c] == s.callers[c]
    decreases |es|
  {
    hide Step;
    if es != [] {
      assert !(es[0].Check? && es[0].c == c);
      OnlyCheckEndsFlight(s, es[0], c);
      InFlightIsFrozen(Step(s, es[0]).value, es[1..], c);
    }
  }

  /**
   Any managed request, first try or retry, is accepted when server and host agreed at its send and
   nothing happened to the host's token between the send and the host's check.
   */
  lemma UndisturbedRequestIsAccepted(s: State, c: CallerId, p: PassId, es: seq<Event>, verdict: Verdict)
    requires Reachable(s) && LastMintedBy(s, p) && p in s.committed && !s.server.auth.OutsideToken?
    requires c in s.callers && s.callers[c].plane == Api && Step(s, Send(c)).Some?
    requires Run(Step(s, Send(c)).value, es).Some?
    requires forall e :: e in es ==> !(e.Check? && e.c == c)
    requires var last := Run(Step(s, Send(c)).value, es).value;
             last.log == s.log && last.now < s.log[|s.log| - 1].expire * 1000 && Step(last, Check(c, verdict)).Some?
    ensures verdict != Unauthorized
  {
    ServerAndHostAgree(s, p);
    InFlightIsFrozen(Step(s, Send(c)).value, es, c);
  }

  /** A caller that skips repair while server and host agree has over 30 s before the host's token expires. */
  lemma SkippedRepairIsSafe(s: State, p: PassId)
    requires Reachable(s) && LastMintedBy(s, p) && p in s.committed && !s.server.auth.OutsideToken?
    requires Ensure(s.server, s.now) == Skip
    ensures s.now + SAFETY_WINDOW_MS < s.log[|s.log| - 1].expire * 1000
    ensures s.server.passwordExpiresAt.Some? && s.now + SAFETY_WINDOW_MS < s.server.passwordExpiresAt.value
  {
    ReachableInv(s);
    EnsureDecides(s.server, s.now);
  }
}
