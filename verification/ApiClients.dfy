/**
 The cache of API clients. A client keeps the ticket it logged in for, while the cluster's credentials may
 be exchanged at any time by a repair pass or an explicit swap; a fingerprint decides which client to reuse.
 */
module ApiClients {
  import opened Common

  datatype Auth =
    | ApiToken(user: string, realm: string, tokenId: string, secret: string)
    | Ticket(username: string, realm: string, password: string, otp: Option<string>)
    | SecretRef(secretCluster: string)
    | SshBootstrap(sshUsername: string, apiUser: string, apiRealm: string, tokenId: string)

  function OtpText(otp: Option<string>): string {
    if otp.Some? then otp.value else ""
  }

  /** `getApiClientFingerprint`. */
  function Fingerprint(a: Auth): string {
    match a
    case ApiToken(user, realm, tokenId, secret) => "api_token:" + (user + ":" + (realm + ":" + (tokenId + ":" + secret)))
    case Ticket(username, realm, password, otp) => "ticket:" + (username + ":" + (realm + ":" + (password + ":" + OtpText(otp))))
    case SecretRef(secretCluster) => "secret_ref:" + secretCluster
    case SshBootstrap(sshUsername, apiUser, apiRealm, tokenId) =>
      "ssh_bootstrap:" + (sshUsername + ":" + (apiUser + ":" + (apiRealm + ":" + tokenId)))
  }

  predicate ColonFree(s: string) {
    forall i :: 0 <= i < |s| ==> s[i] != ':'
  }

  /** Every field but the password or secret is free of colons. */
  predicate Separable(a: Auth) {
    match a
    case ApiToken(user, realm, tokenId, _) => ColonFree(user) && ColonFree(realm) && ColonFree(tokenId)
    case Ticket(username, realm, _, otp) => ColonFree(username) && ColonFree(realm) && ColonFree(OtpText(otp))
    case SecretRef(_) => true
    case SshBootstrap(sshUsername, apiUser, apiRealm, _) =>
      ColonFree(sshUsername) && ColonFree(apiUser) && ColonFree(apiRealm)
  }

  /** The same login: an empty one-time password is sent no more than an absent one. */
  predicate SameCredentials(a: Auth, b: Auth) {
    if a.Ticket? && b.Ticket? then
      a.username == b.username && a.realm == b.realm && a.password == b.password && OtpText(a.otp) == OtpText(b.otp)
    else a == b
  }

  predicate FirstColonAt(s: string, n: nat) {
    n < |s| && s[n] == ':' && forall i :: 0 <= i < n ==> s[i] != ':'
  }

  predicate LastColonAt(s: string, n: nat) {
    n < |s| && s[n] == ':' && forall i :: n < i < |s| ==> s[i] != ':'
  }

  lemma Parts(a: string, x: string)
    ensures var s := a + ":" + x;
            && s[..|a|] == a && s[|a| + 1..] == x
            && (ColonFree(a) ==> FirstColonAt(s, |a|)) && (ColonFree(x) ==> LastColonAt(s, |a|))
  {
    var s := a + ":" + x;
    assert forall i :: |a| < i < |s| ==> s[i] == x[i - |a| - 1];
  }

  /** The first field is told apart by the first colon. */
  lemma FirstField(a: string, b: string, x: string, y: string)
    requires ColonFree(a) && ColonFree(b) && a + ":" + x == b + ":" + y
    ensures a == b && x == y
  {
    Parts(a, x);
    Parts(b, y);
    assert |a| == |b|;
  }

  /** The last field is told apart by the last colon. */
  lemma LastField(a: string, b: string, x: string, y: string)
    requires ColonFree(x) && ColonFree(y) && a + ":" + x == b + ":" + y
    ensures a == b && x == y
  {
    Parts(a, x);
    Parts(b, y);
    assert |a| == |b|;
  }

  function TypeName(a: Auth): string {
    match a
    case ApiToken(_, _, _, _) => "api_token"
    case Ticket(_, _, _, _) => "ticket"
    case SecretRef(_) => "secret_ref"
    case SshBootstrap(_, _, _, _) => "ssh_bootstrap"
  }

  /** What follows the type name and its colon. */
  function Rest(a: Auth): string {
    match a
    case ApiToken(user, realm, tokenId, secret) => user + ":" + (realm + ":" + (tokenId + ":" + secret))
    case Ticket(username, realm, password, otp) => username + ":" + (realm + ":" + (password + ":" + OtpText(otp)))
    case SecretRef(secretCluster) => secretCluster
    case SshBootstrap(sshUsername, apiUser, apiRealm, tokenId) => sshUsername + ":" + (apiUser + ":" + (apiRealm + ":" + tokenId))
  }

  lemma TypeFirst(a: Auth)
    ensures Fingerprint(a) == TypeName(a) + ":" + Rest(a) && ColonFree(TypeName(a))
  {
    match a
    case ApiToken(_, _, _, _) => assert "api_token" + ":" == "api_token:";
    case Ticket(_, _, _, _) => assert "ticket" + ":" == "ticket:";
    case SecretRef(_) => assert "secret_ref" + ":" == "secret_ref:";
    case SshBootstrap(_, _, _, _) => assert "ssh_bootstrap" + ":" == "ssh_bootstrap:";
  }

  lemma TypesDiffer(a: Auth, b: Auth)
    requires TypeName(a) == TypeName(b)
    ensures (a.ApiToken? <==> b.ApiToken?) && (a.Ticket? <==> b.Ticket?)
    ensures (a.SecretRef? <==> b.SecretRef?) && (a.SshBootstrap? <==> b.SshBootstrap?)
  {
    assert |TypeName(a)| == |TypeName(b)|;
  }

  lemma RestDecides(a: Auth, b: Auth)
    requires Separable(a) && Separable(b) && TypeName(a) == TypeName(b) && Rest(a) == Rest(b)
    ensures SameCredentials(a, b)
  {
    TypesDiffer(a, b);
    match a {
      case ApiToken(u, r, t, s) =>
        FirstField(u, b.user, r + ":" + (t + ":" + s), b.realm + ":" + (b.tokenId + ":" + b.secret));
        FirstField(r, b.realm, t + ":" + s, b.tokenId + ":" + b.secret);
        FirstField(t, b.tokenId, s, b.secret);
      case Ticket(u, r, p, o) =>
        FirstField(u, b.username, r + ":" + (p + ":" + OtpText(o)), b.realm + ":" + (b.password + ":" + OtpText(b.otp)));
        FirstField(r, b.realm, p + ":" + OtpText(o), b.password + ":" + OtpText(b.otp));
        LastField(p, b.password, OtpText(o), OtpText(b.otp));
      case SecretRef(_) =>
      case SshBootstrap(u, au, ar, t) =>
        FirstField(u, b.sshUsername, au + ":" + (ar + ":" + t), b.apiUser + ":" + (b.apiRealm + ":" + b.tokenId));
        FirstField(au, b.apiUser, ar + ":" + t, b.apiRealm + ":" + b.tokenId);
        FirstField(ar, b.apiRealm, t, b.tokenId);
    }
  }

  /** Equal fingerprints mean the same login, whatever passwords and secrets look like. */
  lemma FingerprintDecides(a: Auth, b: Auth)
    requires Separable(a) && Separable(b)
    ensures Fingerprint(a) == Fingerprint(b) <==> SameCredentials(a, b)
  {
    TypeFirst(a);
    TypeFirst(b);
    if Fingerprint(a) == Fingerprint(b) {
      FirstField(TypeName(a), TypeName(b), Rest(a), Rest(b));
      RestDecides(a, b);
    }
  }

  // ------------------------------------------------------------- protocol

  /** A client: the cookie and token it holds, what it was made for, and what its cookie was obtained with. */
  datatype Client = Client(cookie: Option<string>, csrf: Option<string>, madeFor: Auth, loggedInAs: Option<Auth>)

  /** A login that is under way: for which client, with which credentials. */
  datatype Login = Login(client: nat, auth: Auth)

  /** One cluster; `clients` holds every client ever made, also those still used by unfinished requests. */
  datatype State = State(
    auth: Auth, clients: seq<Client>, cached: Option<nat>, fingerprint: Option<string>, logins: map<nat, Login>)

  datatype Event =
    | SetAuth(auth: Auth)
    | AssignAuth(auth: Auth)
    | Request(call: nat)
    | LoginDone(call: nat, ticket: string, csrf: Option<string>)
    | LoginFails(call: nat)

  function Initial(auth: Auth): State {
    State(auth, [], None, None, map[])
  }

  /** `getApiClient`: the cached client while the fingerprint is the stored one, otherwise a new one. */
  function GetClient(s: State): (State, nat) {
    if s.cached.Some? && s.fingerprint == Some(Fingerprint(s.auth)) then (s, s.cached.value)
    else
      (s.(clients := s.clients + [Client(None, None, s.auth, None)],
          cached := Some(|s.clients|), fingerprint := Some(Fingerprint(s.auth))), |s.clients|)
  }

  predicate HasTicket(c: Client) {
    c.cookie.Some? && c.csrf.Some? && c.csrf.value != ""
  }

  /** A request up to its first await: it starts a login when the ticket is missing. */
  function RequestStep(s: State, call: nat): State {
    var (t, c) := GetClient(s);
    if c < |t.clients| && s.auth.Ticket? && !HasTicket(t.clients[c]) then
      t.(logins := t.logins[call := Login(c, s.auth)])
    else t
  }

  function Step(s: State, e: Event): Option<State> {
    match e
    case SetAuth(auth) => Some(s.(auth := auth, cached := None))
    case AssignAuth(auth) => Some(s.(auth := auth))
    case Request(call) => if call in s.logins then None else Some(RequestStep(s, call))
    case LoginDone(call, ticket, csrf) =>
      if call !in s.logins || s.logins[call].client >= |s.clients| then None
      else
        var login := s.logins[call];
        var client := s.clients[login.client].(
                        cookie := Some("PVEAuthCookie=" + ticket), csrf := csrf, loggedInAs := Some(login.auth));
        Some(s.(logins := s.logins - {call}, clients := s.clients[login.client := client]))
    case LoginFails(call) => if call in s.logins then Some(s.(logins := s.logins - {call})) else None
  }

  function Run(s: State, es: seq<Event>): Option<State>
    decreases |es|
  {
    if es == [] then Some(s)
    else
      var next := Step(s, es[0]);
      if next.None? then None else Run(next.value, es[1..])
  }

  predicate ClientOk(c: Client) {
    (c.cookie.Some? <==> c.loggedInAs.Some?)
    && (c.loggedInAs.Some? ==> Fingerprint(c.loggedInAs.value) == Fingerprint(c.madeFor))
  }

  predicate Inv(s: State) {
    && (forall i :: 0 <= i < |s.clients| ==> ClientOk(s.clients[i]))
    && (s.cached.Some? ==> s.cached.value < |s.clients|
                           && s.fingerprint == Some(Fingerprint(s.clients[s.cached.value].madeFor)))
    && (forall c :: c in s.logins ==>
          s.logins[c].client < |s.clients|
          && Fingerprint(s.logins[c].auth) == Fingerprint(s.clients[s.logins[c].client].madeFor))
  }

  lemma GetClientKeeps(s: State)
    requires Inv(s)
    ensures var (t, c) := GetClient(s);
            Inv(t) && c < |t.clients| && Fingerprint(t.clients[c].madeFor) == Fingerprint(s.auth)
  {
    hide Fingerprint;
  }

  lemma StepKeepsInv(s: State, e: Event)
    requires Inv(s) && Step(s, e).Some?
    ensures Inv(Step(s, e).value)
  {
    hide Fingerprint, GetClient;
    if e.Request? { GetClientKeeps(s); }
  }

  lemma {:induction false} RunKeepsInv(s: State, es: seq<Event>)
    requires Inv(s) && Run(s, es).Some?
    ensures Inv(Run(s, es).value)
    decreases |es|
  {
    if es != [] {
      StepKeepsInv(s, es[0]);
      hide Inv, Step;
      RunKeepsInv(Step(s, es[0]).value, es[1..]);
    }
  }

  /** The client that a request gets now. */
  function HandedOut(s: State): Client {
    var (t, c) := GetClient(s);
    if c < |t.clients| then t.clients[c] else Client(None, None, s.auth, None)
  }

  /**
   A request logs in, with the cluster's login of that moment, exactly when the cluster uses a login and
   the client that serves it lacks the cookie or the token; no client loses what it holds.
   */
  lemma RequestLogsIn(s: State, call: nat)
    requires Inv(s) && call !in s.logins
    ensures var t := Step(s, Request(call)).value;
            var client := GetClient(s).1;
            && client < |t.clients| && t.auth == s.auth && t.cached == Some(client) && s.clients <= t.clients
            && (call in t.logins
                <==> s.auth.Ticket? && (t.clients[client].cookie.None? || t.clients[client].csrf.None? || t.clients[client].csrf == Some("")))
            && (call in t.logins ==> t.logins[call] == Login(client, s.auth))
            && (forall other :: other != call ==> (other in t.logins <==> other in s.logins))
            && (forall other :: other != call && other in s.logins ==> t.logins[other] == s.logins[other])
  {
    hide Fingerprint;
    GetClientKeeps(s);
  }

  /** A login that comes back leaves both halves of its ticket with the client it was made for, and with no other. */
  lemma LoginIsKept(s: State, call: nat, ticket: string, csrf: Option<string>)
    requires Inv(s) && call in s.logins
    ensures var login := s.logins[call];
            var t := Step(s, LoginDone(call, ticket, csrf));
            && t.Some? && |t.value.clients| == |s.clients| && t.value.logins == s.logins - {call}
            && t.value.cached == s.cached && t.value.fingerprint == s.fingerprint && t.value.auth == s.auth
            && t.value.clients[login.client]
               == Client(Some("PVEAuthCookie=" + ticket), csrf, s.clients[login.client].madeFor, Some(login.auth))
            && forall i :: 0 <= i < |s.clients| && i != login.client ==> t.value.clients[i] == s.clients[i]
  {
    hide Fingerprint;
  }

  predicate OnlyRequests(es: seq<Event>) {
    forall i :: 0 <= i < |es| ==> es[i].Request?
  }

  /** While the client at hand holds a whole ticket and the login stays, requests change nothing: none logs in again. */
  lemma {:induction false} LoggedInOnce(s: State, es: seq<Event>)
    requires Inv(s) && OnlyRequests(es) && Run(s, es).Some?
    requires s.cached.Some? && s.fingerprint == Some(Fingerprint(s.auth))
    requires var c := s.clients[s.cached.value]; c.cookie.Some? && c.csrf.Some? && c.csrf != Some("")
    ensures Run(s, es) == Some(s)
    decreases |es|
  {
    hide Fingerprint;
    if es != [] {
      assert Step(s, es[0]) == Some(s);
      LoggedInOnce(s, es[1..]);
    }
  }

  /** After credentials were set the next request gets a client without a ticket, whatever the old one held. */
  lemma SwapForgets(s: State, auth: Auth)
    ensures var t := Step(s, SetAuth(auth)).value;
            && t.auth == auth && HandedOut(t) == Client(None, None, auth, None)
            && GetClient(t).1 == |s.clients| && GetClient(t).0.clients[..|s.clients|] == s.clients
  {
    hide Fingerprint;
  }

  /** All the ticket logins that the events write are among these; tokens may be written freely. */
  ghost predicate WritesWithin(es: seq<Event>, logins: iset<Auth>) {
    forall e :: e in es && (e.SetAuth? || e.AssignAuth?) && e.auth.Ticket? ==> e.auth in logins
  }

  /** The credentials in use, the logins under way and the tickets held all stem from these logins. */
  ghost predicate LoginsWithin(s: State, logins: iset<Auth>) {
    && (s.auth.Ticket? ==> s.auth in logins)
    && (forall c :: c in s.logins ==> s.logins[c].auth.Ticket? && s.logins[c].auth in logins)
    && (forall i :: 0 <= i < |s.clients| ==> TicketWithin(s.clients[i], logins))
  }

  ghost predicate TicketWithin(c: Client, logins: iset<Auth>) {
    c.loggedInAs.Some? ==> c.loggedInAs.value.Ticket? && c.loggedInAs.value in logins
  }

  lemma StepStaysWithin(s: State, e: Event, logins: iset<Auth>)
    requires LoginsWithin(s, logins) && Step(s, e).Some?
    requires (e.SetAuth? || e.AssignAuth?) && e.auth.Ticket? ==> e.auth in logins
    ensures LoginsWithin(Step(s, e).value, logins)
  {
    hide Fingerprint;
  }

  lemma {:induction false} RunStaysWithin(s: State, es: seq<Event>, logins: iset<Auth>)
    requires LoginsWithin(s, logins) && WritesWithin(es, logins) && Run(s, es).Some?
    ensures LoginsWithin(Run(s, es).value, logins)
    decreases |es|
  {
    if es != [] {
      assert es[0] in es && forall e :: e in es[1..] ==> e in es;
      StepStaysWithin(s, es[0], logins);
      hide Step, LoginsWithin;
      RunStaysWithin(Step(s, es[0]).value, es[1..], logins);
    }
  }

  /** A ticket that is handed out belongs to a login with the fingerprint of the current one. */
  lemma HandedOutTicket(first: Auth, es: seq<Event>, logins: iset<Auth>)
    requires Run(Initial(first), es).Some? && WritesWithin(es, logins) && (first.Ticket? ==> first in logins)
    ensures var s := Run(Initial(first), es).value;
            var c := HandedOut(s);
            && GetClient(s).1 < |GetClient(s).0.clients|
            && (c.cookie.Some? <==> c.loggedInAs.Some?)
            && (c.loggedInAs.Some? ==>
                  c.loggedInAs.value in logins && c.loggedInAs.value.Ticket?
                  && s.auth in logins && s.auth.Ticket? && Fingerprint(c.loggedInAs.value) == Fingerprint(s.auth))
  {
    var s := Run(Initial(first), es).value;
    RunKeepsInv(Initial(first), es);
    RunStaysWithin(Initial(first), es, logins);
    GetClientKeeps(s);
    var (t, c) := GetClient(s);
    assert ClientOk(t.clients[c]) && TicketWithin(t.clients[c], logins);
    if t.clients[c].loggedInAs.Some? {
      SameType(t.clients[c].loggedInAs.value, s.auth);
    }
  }

  lemma SameType(a: Auth, b: Auth)
    requires Fingerprint(a) == Fingerprint(b)
    ensures a.Ticket? <==> b.Ticket?
  {
    TypeFirst(a);
    TypeFirst(b);
    FirstField(TypeName(a), TypeName(b), Rest(a), Rest(b));
    TypesDiffer(a, b);
  }

  /** Every write of the credentials writes a token, as all those of the program do. */
  predicate WritesTokens(es: seq<Event>) {
    forall i :: 0 <= i < |es| && (es[i].SetAuth? || es[i].AssignAuth?) ==> es[i].auth.ApiToken?
  }

  /**
   Whatever names and passwords look like: after any sequence of requests, logins that come back late and
   swaps to tokens, the client that a request gets holds no ticket, or one obtained with exactly the
   cluster's current login.
   */
  lemma TicketsAreCurrent(first: Auth, es: seq<Event>)
    requires Run(Initial(first), es).Some? && WritesTokens(es)
    ensures var s := Run(Initial(first), es).value;
            && GetClient(s).1 < |GetClient(s).0.clients|
            && (HandedOut(s).cookie.Some? <==> HandedOut(s).loggedInAs.Some?)
            && (HandedOut(s).loggedInAs.Some? ==> HandedOut(s).loggedInAs == Some(s.auth) && s.auth == first)
  {
    HandedOutTicket(first, es, iset{first});
  }

  /** Two logins count as one when they send the same fields. */
  predicate Current(s: State) {
    HandedOut(s).loggedInAs.Some? ==> SameCredentials(HandedOut(s).loggedInAs.value, s.auth)
  }

  /** In every run that uses no other ticket logins, no client is handed out with another login's ticket. */
  ghost predicate AlwaysCurrent(logins: iset<Auth>) {
    forall first: Auth, es: seq<Event> ::
      (first.Ticket? ==> first in logins) && WritesWithin(es, logins) && Run(Initial(first), es).Some?
      ==> Current(Run(Initial(first), es).value)
  }

  ghost predicate FingerprintsTellApart(logins: iset<Auth>) {
    forall a, b :: a in logins && b in logins && a.Ticket? && b.Ticket? && Fingerprint(a) == Fingerprint(b)
                   ==> SameCredentials(a, b)
  }

  /**
   A client logged in as `a` when `b` is assigned over it: the next request gets that client exactly when
   the two fingerprints are equal.
   */
  lemma AssignedOver(a: Auth, b: Auth, ticket: string, csrf: string)
    requires a.Ticket? && csrf != ""
    ensures var run := Run(Initial(a), [Request(0), LoginDone(0, ticket, Some(csrf)), AssignAuth(b)]);
            && run.Some? && run.value.auth == b
            && (HandedOut(run.value).loggedInAs == Some(a) <==> Fingerprint(a) == Fingerprint(b))
  {
    hide Fingerprint;
    var es := [Request(0), LoginDone(0, ticket, Some(csrf)), AssignAuth(b)];
    var s1 := Step(Initial(a), es[0]).value;
    var s2 := Step(s1, es[1]).value;
    var s3 := s2.(auth := b);
    assert es[1..] == [es[1], es[2]] && es[1..][1..] == [es[2]] && es[1..][1..][1..] == [];
    assert Run(s2, [es[2]]) == Some(s3);
    assert Run(s1, [es[1], es[2]]) == Some(s3);
    assert Run(Initial(a), es) == Some(s3);
  }

  /**
   If ticket logins could be swapped for one another: all runs would keep tickets current if and only if
   no two different logins among those used had the same fingerprint.
   */
  lemma CurrentIffTellApart(logins: iset<Auth>)
    ensures AlwaysCurrent(logins) <==> FingerprintsTellApart(logins)
  {
    if FingerprintsTellApart(logins) {
      forall first: Auth, es: seq<Event> | (first.Ticket? ==> first in logins) && WritesWithin(es, logins) && Run(Initial(first), es).Some?
        ensures Current(Run(Initial(first), es).value)
      {
        HandedOutTicket(first, es, logins);
      }
    }
    if AlwaysCurrent(logins) {
      forall a, b | a in logins && b in logins && a.Ticket? && b.Ticket? && Fingerprint(a) == Fingerprint(b)
        ensures SameCredentials(a, b)
      {
        AssignedOver(a, b, "t", "c");
        var es := [Request(0), LoginDone(0, "t", Some("c")), AssignAuth(b)];
        assert WritesWithin(es, logins);
        assert Current(Run(Initial(a), es).value);
      }
    }
  }

  /** That is the case when no field but the password contains a colon. */
  lemma SeparableLoginsStayCurrent(logins: iset<Auth>)
    requires forall a :: a in logins ==> Separable(a)
    ensures AlwaysCurrent(logins)
  {
    forall a, b | a in logins && b in logins && Fingerprint(a) == Fingerprint(b) ensures SameCredentials(a, b) {
      FingerprintDecides(a, b);
    }
    CurrentIffTellApart(logins);
  }

  /** The fingerprint does not tell all logins apart: a colon may stand in a name or in a realm. */
  lemma FingerprintIsNotInjective()
    ensures var a, b := Ticket("a:b", "c", "p", None), Ticket("a", "b:c", "p", None);
            Fingerprint(a) == Fingerprint(b) && !SameCredentials(a, b) && !AlwaysCurrent(iset{a, b})
  {
    var a, b := Ticket("a:b", "c", "p", None), Ticket("a", "b:c", "p", None);
    assert |a.username| == 3 && |b.username| == 1;
    assert Fingerprint(a) == Fingerprint(b) by {
      assert "a:b" + ":" + ("c" + ":" + ("p" + ":" + "")) == "a" + ":" + ("b:c" + ":" + ("p" + ":" + ""));
    }
    CurrentIffTellApart(iset{a, b});
    assert a in iset{a, b} && b in iset{a, b};
    hide Fingerprint, SameCredentials, AlwaysCurrent;
  }

  // -------------------------------------------------------------- objects

  /** What the login endpoint answered; an empty ticket stands for none. */
  datatype LoginReply = LoginReply(ok: bool, ticket: string, csrf: Option<string>)

  class ProxmoxApiClient {
    var ticketCookie: Option<string>
    var csrfToken: Option<string>

    constructor ()
      ensures ticketCookie.None? && csrfToken.None?
    {
      ticketCookie, csrfToken := None, None;
    }

    /** `ensureTicket`: logs in unless both halves of a ticket are there; a failed login changes nothing. */
    method EnsureTicket(auth: Auth, reply: LoginReply) returns (ok: bool, loggedIn: bool)
      modifies this
      ensures loggedIn == (auth.Ticket? && !(old(ticketCookie).Some? && old(csrfToken).Some? && old(csrfToken).value != ""))
      ensures ok == (!loggedIn || (reply.ok && reply.ticket != ""))
      ensures !loggedIn || !ok ==> ticketCookie == old(ticketCookie) && csrfToken == old(csrfToken)
      ensures loggedIn && ok ==> ticketCookie == Some("PVEAuthCookie=" + reply.ticket) && csrfToken == reply.csrf
    {
      if !auth.Ticket? {
        return true, false;
      }
      if ticketCookie.Some? && csrfToken.Some? && csrfToken.value != "" {
        return true, false;
      }
      if !reply.ok || reply.ticket == "" {
        return false, true;
      }
      ticketCookie := Some("PVEAuthCookie=" + reply.ticket);
      csrfToken := reply.csrf;
      return true, true;
    }
  }

  class ClientCache {
    var auths: map<string, Auth>
    var apiClients: map<string, ProxmoxApiClient>
    var apiClientFingerprints: map<string, string>

    constructor (configured: map<string, Auth>)
      ensures auths == configured && apiClients == map[] && apiClientFingerprints == map[]
    {
      auths, apiClients, apiClientFingerprints := configured, map[], map[];
    }

    /** Reuses a client only under the fingerprint it was stored with; a new one starts without a ticket. */
    method GetApiClient(clusterName: string) returns (r: Option<ProxmoxApiClient>)
      modifies this`apiClients, this`apiClientFingerprints
      ensures r.Some? <==> clusterName in auths
      ensures r.None? ==> apiClients == old(apiClients) && apiClientFingerprints == old(apiClientFingerprints)
      ensures r.Some? ==>
                var fingerprint := Fingerprint(auths[clusterName]);
                && apiClients == old(apiClients)[clusterName := r.value]
                && apiClientFingerprints == old(apiClientFingerprints)[clusterName := fingerprint]
                && if clusterName in old(apiClients) && clusterName in old(apiClientFingerprints)
                      && old(apiClientFingerprints)[clusterName] == fingerprint
                   then r.value == old(apiClients)[clusterName]
                   else fresh(r.value) && r.value.ticketCookie.None? && r.value.csrfToken.None?
    {
      hide Fingerprint;
      if clusterName !in auths {
        return None;
      }
      var fingerprint := Fingerprint(auths[clusterName]);
      if clusterName in apiClients && clusterName in apiClientFingerprints
         && apiClientFingerprints[clusterName] == fingerprint {
        return Some(apiClients[clusterName]);
      }
      var client := new ProxmoxApiClient();
      apiClients := apiClients[clusterName := client];
      apiClientFingerprints := apiClientFingerprints[clusterName := fingerprint];
      return Some(client);
    }

    /** The stored fingerprint stays, which is harmless: without a client it is never looked at. */
    method SetClusterAuth(clusterName: string, auth: Auth) returns (ok: bool)
      modifies this`auths, this`apiClients
      ensures ok == (clusterName in old(auths))
      ensures auths == if ok then old(auths)[clusterName := auth] else old(auths)
      ensures apiClients == if ok then old(apiClients) - {clusterName} else old(apiClients)
    {
      if clusterName !in auths {
        return false;
      }
      auths := auths[clusterName := auth];
      apiClients := apiClients - {clusterName};
      return true;
    }
  }
}
