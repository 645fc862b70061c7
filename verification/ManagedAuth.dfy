/**
 The managed-credential lifecycle of one server process.

 Everything between two `await`s of the source is one atomic piece of code here. Each piece is
 first a pure function on the state of one managed cluster; the class below updates its fields in
 place and is proved against those functions, and AuthProtocol interleaves the same functions.
 */
module ManagedAuth {
  import opened Common

  type PassId = nat
  type TimerId = nat

  const ROTATION_INTERVAL_MS: int := 15 * 60 * 1000
  const TOKEN_EXPIRE_SECONDS: int := 20 * 60
  const SAFETY_WINDOW_MS: int := 30 * 1000
  const MAX_SAFE_INTEGER: int := 9_007_199_254_740_991

  /** `cluster.auth`: the bootstrap login, a token this lifecycle committed, or one set from outside. */
  datatype Auth = SshBootstrap | ManagedToken(secret: string) | OutsideToken(user: string, secret: string)

  /** One `managedClusters` entry together with the `auth` field of the cluster it manages. */
  datatype ManagedState = ManagedState(
    auth: Auth,
    repairPromise: Option<PassId>,
    rotationTimer: Option<TimerId>,
    currentToken: Option<string>,
    passwordExpiresAt: Option<int>,
    tokenExpiresAt: Option<int>)

  datatype EnsureDecision = Unmanaged | Join(pass: PassId) | Skip | Lead

  /** The expiry, in seconds since the epoch, that a script built at `now` asks the host for. */
  function ScriptExpire(now: nat): int {
    now / 1000 + TOKEN_EXPIRE_SECONDS
  }

  function Deadline(m: ManagedState): int {
    var password := if m.passwordExpiresAt.Some? then m.passwordExpiresAt.value else MAX_SAFE_INTEGER;
    var token := if m.tokenExpiresAt.Some? then m.tokenExpiresAt.value else MAX_SAFE_INTEGER;
    if password < token then password else token
  }

  /** What `ensureCluster` does before its first await. */
  function Ensure(m: ManagedState, now: nat): EnsureDecision {
    if m.repairPromise.Some? then Join(m.repairPromise.value)
    else if now + SAFETY_WINDOW_MS < Deadline(m) then Skip
    else Lead
  }

  /** The state `reconcileCluster` leaves once the script's output has been parsed. */
  function Commit(m: ManagedState, secret: string, expire: int, timer: TimerId, now: nat): ManagedState {
    m.(auth := ManagedToken(secret),
       currentToken := Some(secret),
       passwordExpiresAt := Some(now + ROTATION_INTERVAL_MS),
       tokenExpiresAt := Some(expire * 1000),
       rotationTimer := Some(timer))
  }

  /** The armed timers once the timer a cluster remembers, if any, is replaced by `timer`. */
  function Rearm(armed: map<TimerId, nat>, previous: Option<TimerId>, timer: TimerId, now: nat): map<TimerId, nat> {
    (if previous.Some? then armed - {previous.value} else armed)[timer := now + ROTATION_INTERVAL_MS]
  }

  /** `timer` is due at `due`, the timer the cluster remembered is disarmed, and every other timer stays. */
  ghost predicate Replaced(before: map<TimerId, nat>, previous: Option<TimerId>, timer: TimerId, due: nat, after: map<TimerId, nat>) {
    && timer in after && after[timer] == due
    && (forall t :: t in after && t != timer ==> t in before && previous != Some(t) && after[t] == before[t])
    && (forall t :: t in before && previous != Some(t) ==> t in after)
  }

  /**
   A commit stores a timer and arms it for fifteen minutes later. That moment is strictly before the
   token expires exactly when the pass, from building its script at `built`, took less than 300 s minus
   the milliseconds that `Math.floor` dropped.
   */
  lemma RotationBeforeExpiry(m: ManagedState, secret: string, timer: TimerId, built: nat, committed: nat,
                             armed: map<TimerId, nat>)
    requires built <= committed
    ensures var after := Commit(m, secret, ScriptExpire(built), timer, committed);
            var rearmed := Rearm(armed, m.rotationTimer, timer, committed);
            && after.rotationTimer == Some(timer)
            && Replaced(armed, m.rotationTimer, timer, committed + 900_000, rearmed)
            && (rearmed[timer] < after.tokenExpiresAt.value <==> committed - built < 300_000 - built % 1000)
            && (committed - built <= 299_000 ==> rearmed[timer] < after.tokenExpiresAt.value)
  {
    assert built == built / 1000 * 1000 + built % 1000;
  }

  /** More than 30 s remain before a deadline; one that is not known counts as the largest safe integer. */
  predicate HasMargin(deadline: Option<int>, now: nat) {
    now + 30_000 < (if deadline.Some? then deadline.value else 9_007_199_254_740_991)
  }

  /** A pass under way is joined; otherwise the cluster is left alone exactly when both deadlines have a margin. */
  lemma EnsureDecides(m: ManagedState, now: nat)
    ensures forall p: PassId :: Ensure(m, now) == Join(p) <==> m.repairPromise == Some(p)
    ensures Ensure(m, now) == Skip
            <==> m.repairPromise.None? && HasMargin(m.passwordExpiresAt, now) && HasMargin(m.tokenExpiresAt, now)
    ensures Ensure(m, now) == Lead
            <==> m.repairPromise.None? && !(HasMargin(m.passwordExpiresAt, now) && HasMargin(m.tokenExpiresAt, now))
  {
  }

  datatype Profile = Profile(name: string, username: string, password: string, port: nat)
  datatype Node = Node(name: string, host: string, port: nat, sshProfile: string)
  datatype Bootstrap = Bootstrap(host: string, port: nat, username: string, password: string)

  /** The parts of a cluster's configuration, other than `auth`, that a pass rewrites. */
  datatype Cluster = Cluster(bootstrap: Bootstrap, nodes: seq<Node>, defaultNode: Option<string>)

  ghost predicate DistinctProfiles(ps: seq<Profile>) {
    forall i, j :: 0 <= i < j < |ps| ==> ps[i].name != ps[j].name
  }

  ghost predicate DistinctNodes(ns: seq<Node>) {
    forall i, j :: 0 <= i < j < |ns| ==> ns[i].name != ns[j].name
  }

  /** `after` is `before` with the entry called `p.name` replaced in place, or appended if there was none. */
  ghost predicate ProfileUpserted(before: seq<Profile>, p: Profile, after: seq<Profile>) {
    if exists i :: 0 <= i < |before| && before[i].name == p.name then
      exists i :: 0 <= i < |before| && before[i].name == p.name
        && (forall j :: 0 <= j < i ==> before[j].name != p.name)
        && after == before[i := p]
    else
      after == before + [p]
  }

  ghost predicate NodeUpserted(before: seq<Node>, n: Node, after: seq<Node>) {
    if exists i :: 0 <= i < |before| && before[i].name == n.name then
      exists i :: 0 <= i < |before| && before[i].name == n.name
        && (forall j :: 0 <= j < i ==> before[j].name != n.name)
        && after == before[i := n]
    else
      after == before + [n]
  }

  function LookupProfile(ps: seq<Profile>, name: string): Option<Profile> {
    if ps == [] then None
    else if ps[|ps| - 1].name == name then Some(ps[|ps| - 1])
    else LookupProfile(ps[..|ps| - 1], name)
  }

  /**
   The index `new Map(profiles.map(...))` built from an upserted list finds the new profile under its
   name and finds every other name exactly as before, as long as names were distinct.
   */
  lemma {:induction false} UpsertedLookup(before: seq<Profile>, p: Profile, after: seq<Profile>, name: string)
    requires DistinctProfiles(before) && ProfileUpserted(before, p, after)
    ensures DistinctProfiles(after)
    ensures LookupProfile(after, name) == if name == p.name then Some(p) else LookupProfile(before, name)
  {
    if forall i :: 0 <= i < |before| ==> before[i].name != p.name {
      assert after[..|before|] == before;
    } else {
      var i :| 0 <= i < |before| && before[i].name == p.name && after == before[i := p];
      ReplacedLookup(before, i, p, name);
    }
  }

  lemma {:induction false} ReplacedLookup(ps: seq<Profile>, i: nat, p: Profile, name: string)
    requires i < |ps| && ps[i].name == p.name && DistinctProfiles(ps)
    ensures LookupProfile(ps[i := p], name) == if name == p.name then Some(p) else LookupProfile(ps, name)
  {
    var last := |ps| - 1;
    if i < last {
      assert ps[i := p][..last] == ps[..last][i := p];
      ReplacedLookup(ps[..last], i, p, name);
    } else {
      assert ps[i := p][..last] == ps[..last];
    }
  }

  class ManagedAuthLifecycle {
    var managed: map<string, ManagedState>
    var clusters: map<string, Cluster>
    var sshProfiles: seq<Profile>
    var armed: map<TimerId, nat>
    var nextPass: PassId
    var nextTimer: TimerId

    /** Every managed cluster is configured; a new timer never takes the id of an armed one. */
    ghost predicate Valid()
      reads this
    {
      && managed.Keys <= clusters.Keys
      && (forall t :: t in armed ==> t < nextTimer)
      && DistinctProfiles(sshProfiles)
      && (forall c :: c in clusters ==> DistinctNodes(clusters[c].nodes))
    }

    /** One entry per cluster that starts on bootstrap credentials. */
    constructor (configured: map<string, Cluster>, bootstrapOnly: set<string>, profiles: seq<Profile>)
      requires bootstrapOnly <= configured.Keys && DistinctProfiles(profiles)
      requires forall c :: c in configured ==> DistinctNodes(configured[c].nodes)
      ensures Valid()
      ensures managed.Keys == bootstrapOnly && clusters == configured && sshProfiles == profiles
      ensures forall c :: c in managed ==> managed[c] == ManagedState(SshBootstrap, None, None, None, None, None)
      ensures armed == map[]
    {
      managed := map c | c in bootstrapOnly :: ManagedState(SshBootstrap, None, None, None, None, None);
      clusters := configured;
      sshProfiles := profiles;
      armed := map[];
      nextPass, nextTimer := 0, 0;
    }

    /** A name resolves to itself when managed, and to the only managed cluster when there is just one. */
    method ResolveManagedClusterName(clusterName: string) returns (r: Option<string>)
      ensures r.Some? ==> r.value in managed
      ensures clusterName in managed ==> r == Some(clusterName)
      ensures clusterName !in managed ==> (r.Some? <==> |managed| == 1)
      ensures forall c :: |managed| == 1 && c in managed ==> r == Some(c)
    {
      if clusterName in managed {
        if |managed| == 1 { OnlyKey(managed, clusterName); }
        return Some(clusterName);
      }
      if |managed| == 1 {
        var only :| only in managed;
        OnlyKey(managed, only);
        return Some(only);
      }
      return None;
    }

    static lemma OnlyKey(m: map<string, ManagedState>, k: string)
      requires |m| == 1 && k in m
      ensures forall c :: c in m ==> c == k
    {
      forall c | c in m ensures c == k {
        assert |m.Keys - {k}| == 0;
        assert c !in m.Keys - {k};
      }
    }

    /** `ensureCluster` up to its first await; `Lead` also starts the pass that `repairCluster` starts. */
    method EnsureCluster(clusterName: string, now: nat) returns (decision: EnsureDecision, name: Option<string>)
      requires Valid()
      modifies this
      ensures Valid()
      ensures clusters == old(clusters) && sshProfiles == old(sshProfiles) && armed == old(armed)
      ensures name.None? <==> decision == Unmanaged
      ensures clusterName in old(managed) ==> name == Some(clusterName)
      ensures name.Some? ==> name.value in old(managed) && decision == Ensure(old(managed)[name.value], now)
      ensures decision == Lead ==> nextPass == old(nextPass) + 1
      ensures decision == Lead ==>
                managed == old(managed)[name.value := old(managed)[name.value].(repairPromise := Some(old(nextPass)))]
      ensures decision != Lead ==> managed == old(managed) && nextPass == old(nextPass)
    {
      name := ResolveManagedClusterName(clusterName);
      if name.None? {
        return Unmanaged, None;
      }
      decision := Ensure(managed[name.value], now);
      if decision == Lead {
        var _, _ := RepairCluster(name.value);
      }
    }

    /**
     `repairCluster` up to its await: a caller either joins the pass whose promise is stored, or starts
     a new one and stores its promise. Either way the stored promise is the one it then awaits.
     */
    method RepairCluster(clusterName: string) returns (awaited: Option<PassId>, started: bool)
      requires Valid()
      modifies this
      ensures Valid()
      ensures clusters == old(clusters) && sshProfiles == old(sshProfiles) && armed == old(armed)
      ensures managed.Keys == old(managed).Keys
      ensures awaited.None? ==> managed == old(managed) && clusterName !in managed && !started
      ensures awaited.Some? ==>
                exists c :: c in managed && managed[c].repairPromise == awaited
                            && (clusterName in managed ==> c == clusterName)
                            && started == old(managed)[c].repairPromise.None?
                            && managed == old(managed)[c := old(managed)[c].(repairPromise := awaited)]
      ensures started ==> awaited == Some(old(nextPass)) && nextPass == old(nextPass) + 1
      ensures !started ==> managed == old(managed) && nextPass == old(nextPass)
    {
      var name := ResolveManagedClusterName(clusterName);
      if name.None? {
        return None, false;
      }
      var c := name.value;
      if managed[c].repairPromise.Some? {
        assert managed == managed[c := managed[c].(repairPromise := managed[c].repairPromise)];
        return managed[c].repairPromise, false;
      }
      managed := managed[c := managed[c].(repairPromise := Some(nextPass))];
      nextPass := nextPass + 1;
      return managed[c].repairPromise, true;
    }

    /** The `finally` callback of a pass: the stored promise is cleared, nothing else changes. */
    method ClearRepair(c: string)
      requires Valid()
      modifies this`managed
      ensures Valid()
      ensures managed == if c in old(managed) then old(managed)[c := old(managed)[c].(repairPromise := None)]
                         else old(managed)
    {
      if c in managed {
        managed := managed[c := managed[c].(repairPromise := None)];
      }
    }

    method UpsertProfile(profile: Profile)
      requires Valid()
      modifies this`sshProfiles
      ensures Valid() && ProfileUpserted(old(sshProfiles), profile, sshProfiles)
    {
      var i := 0;
      while i < |sshProfiles| && sshProfiles[i].name != profile.name
        invariant 0 <= i <= |sshProfiles|
        invariant forall j :: 0 <= j < i ==> sshProfiles[j].name != profile.name
      {
        i := i + 1;
      }
      if i < |sshProfiles| {
        sshProfiles := sshProfiles[i := profile];
      } else {
        sshProfiles := sshProfiles + [profile];
      }
    }

    /**
     After a pass both hidden profiles are filed under their names, every other profile name looks up
     as before, and the cluster has exactly one entry for the reported node, on the bootstrap profile.
     */
    method UpsertRuntimeProfiles(c: string, password: string, nodeName: string)
      requires Valid() && c in clusters
      modifies this`sshProfiles, this`clusters
      ensures Valid() && clusters.Keys == old(clusters).Keys
      ensures LookupProfile(sshProfiles, "__managed_" + c)
              == Some(Profile("__managed_" + c, "mcp", password, clusters[c].bootstrap.port))
      ensures var b := clusters[c].bootstrap;
              LookupProfile(sshProfiles, "__bootstrap_" + c) == Some(Profile("__bootstrap_" + c, b.username, b.password, b.port))
      ensures forall name :: name != "__managed_" + c && name != "__bootstrap_" + c
                ==> LookupProfile(sshProfiles, name) == LookupProfile(old(sshProfiles), name)
      ensures forall d :: d in clusters && d != c ==> clusters[d] == old(clusters)[d]
      ensures clusters[c].bootstrap == old(clusters)[c].bootstrap
      ensures var b := clusters[c].bootstrap;
              NodeUpserted(old(clusters)[c].nodes, Node(nodeName, b.host, b.port, "__bootstrap_" + c), clusters[c].nodes)
      ensures clusters[c].defaultNode == if old(clusters)[c].defaultNode.None? || old(clusters)[c].defaultNode == Some("")
                                         then Some(nodeName) else old(clusters)[c].defaultNode
    {
      var cluster := clusters[c];
      var managedProfile, bootstrapProfile := ManagedProfile(c, cluster.bootstrap, password), BootstrapProfile(c, cluster.bootstrap);
      assert managedProfile.name[2] != bootstrapProfile.name[2];
      UpsertBoth(managedProfile, bootstrapProfile);
      var nodes := UpsertNode(cluster.nodes, RuntimeNode(c, cluster.bootstrap, nodeName));
      var defaultNode := if cluster.defaultNode.None? || cluster.defaultNode.value == "" then Some(nodeName) else cluster.defaultNode;
      clusters := clusters[c := Cluster(cluster.bootstrap, nodes, defaultNode)];
      hide LookupProfile, NodeUpserted, DistinctProfiles;
    }

    method UpsertBoth(first: Profile, second: Profile)
      requires Valid()
      modifies this`sshProfiles
      ensures Valid()
      ensures first.name != second.name ==> LookupProfile(sshProfiles, first.name) == Some(first)
      ensures LookupProfile(sshProfiles, second.name) == Some(second)
      ensures forall name :: name != first.name && name != second.name ==>
                LookupProfile(sshProfiles, name) == LookupProfile(old(sshProfiles), name)
    {
      hide LookupProfile, ProfileUpserted;
      ghost var p0 := sshProfiles;
      UpsertProfile(first);
      ghost var p1 := sshProfiles;
      UpsertProfile(second);
      forall name
        ensures LookupProfile(p1, name) == if name == first.name then Some(first) else LookupProfile(p0, name)
        ensures LookupProfile(sshProfiles, name) == if name == second.name then Some(second) else LookupProfile(p1, name)
      {
        UpsertedLookup(p0, first, p1, name);
        UpsertedLookup(p1, second, sshProfiles, name);
      }
    }

    /** Replaces the entry of that name or appends one. */
    static method UpsertNode(nodes: seq<Node>, entry: Node) returns (after: seq<Node>)
      requires DistinctNodes(nodes)
      ensures NodeUpserted(nodes, entry, after) && DistinctNodes(after)
    {
      var i := 0;
      while i < |nodes| && nodes[i].name != entry.name
        invariant 0 <= i <= |nodes|
        invariant forall j :: 0 <= j < i ==> nodes[j].name != entry.name
      {
        i := i + 1;
      }
      after := if i < |nodes| then nodes[i := entry] else nodes + [entry];
    }

    /** Any armed timer of the cluster is cancelled before the next one is armed. */
    method ScheduleRotation(c: string, now: nat)
      requires Valid() && c in managed
      modifies this`managed, this`armed, this`nextTimer
      ensures Valid() && nextTimer == old(nextTimer) + 1
      ensures managed == old(managed)[c := old(managed)[c].(rotationTimer := Some(old(nextTimer)))]
      ensures armed == Rearm(old(armed), old(managed)[c].rotationTimer, old(nextTimer), now)
      ensures Replaced(old(armed), old(managed)[c].rotationTimer, old(nextTimer), now + 900_000, armed)
    {
      var state := managed[c];
      if state.rotationTimer.Some? {
        armed := armed - {state.rotationTimer.value};
      }
      armed := armed[nextTimer := now + ROTATION_INTERVAL_MS];
      managed := managed[c := state.(rotationTimer := Some(nextTimer))];
      nextTimer := nextTimer + 1;
    }

    /** The last piece of `reconcileCluster`, from the parsed script output to the armed timer. */
    method CommitPass(c: string, password: string, nodeName: string, secret: string, expire: int, now: nat)
      requires Valid() && c in managed
      modifies this
      ensures Valid()
      ensures managed == old(managed)[c := Commit(old(managed)[c], secret, expire, old(nextTimer), now)]
      ensures armed == Rearm(old(armed), old(managed)[c].rotationTimer, old(nextTimer), now)
      ensures managed[c].auth == ManagedToken(secret) && managed[c].currentToken == Some(secret)
      ensures managed[c].passwordExpiresAt == Some(now + 900_000) && managed[c].tokenExpiresAt == Some(expire * 1000)
      ensures managed[c].repairPromise == old(managed)[c].repairPromise
      ensures managed[c].rotationTimer == Some(old(nextTimer))
      ensures Replaced(old(armed), old(managed)[c].rotationTimer, old(nextTimer), now + 900_000, armed)
      ensures forall built: nat :: built <= now && expire == ScriptExpire(built) ==>
                (armed[old(nextTimer)] < managed[c].tokenExpiresAt.value <==> now - built < 300_000 - built % 1000)
      ensures nextPass == old(nextPass) && nextTimer == old(nextTimer) + 1
      ensures clusters.Keys == old(clusters).Keys
      ensures forall d :: d in clusters && d != c ==> clusters[d] == old(clusters)[d]
      ensures var b := old(clusters)[c].bootstrap;
              NodeUpserted(old(clusters)[c].nodes, Node(nodeName, b.host, b.port, "__bootstrap_" + c), clusters[c].nodes)
      ensures var b := old(clusters)[c].bootstrap;
              && LookupProfile(sshProfiles, "__managed_" + c) == Some(Profile("__managed_" + c, "mcp", password, b.port))
              && LookupProfile(sshProfiles, "__bootstrap_" + c) == Some(Profile("__bootstrap_" + c, b.username, b.password, b.port))
    {
      hide NodeUpserted, LookupProfile, DistinctProfiles, DistinctNodes, RuntimeNode, Replaced;
      forall built: nat | built <= now && expire == ScriptExpire(built)
        ensures now + 900_000 < expire * 1000 <==> now - built < 300_000 - built % 1000
      {
        RotationBeforeExpiry(managed[c], secret, nextTimer, built, now, armed);
      }
      var state := managed[c].(
        currentToken := Some(secret),
        passwordExpiresAt := Some(now + ROTATION_INTERVAL_MS),
        tokenExpiresAt := Some(expire * 1000));
      managed := managed[c := state.(auth := ManagedToken(secret))];
      UpsertRuntimeProfiles(c, password, nodeName);
      ScheduleRotation(c, now);
    }
  }

  function ManagedProfile(c: string, b: Bootstrap, password: string): Profile {
    Profile("__managed_" + c, "mcp", password, b.port)
  }

  function BootstrapProfile(c: string, b: Bootstrap): Profile {
    Profile("__bootstrap_" + c, b.username, b.password, b.port)
  }

  function RuntimeNode(c: string, b: Bootstrap, nodeName: string): Node {
    Node(nodeName, b.host, b.port, BootstrapProfile(c, b).name)
  }
}
