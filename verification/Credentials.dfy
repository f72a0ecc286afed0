/**
 * Refresh tokens, device sign-ins, sessions and token versions. Refreshing and polling read first and act in a later
 * transaction, so anything may happen in between.
 */
module Credentials {
  import opened Prelude

  type Name = string

  datatype User = User(tokenVersion: nat, disabled: bool, mustChangePassword: bool)

  datatype RefreshToken = RefreshToken(user: Name, revoked: bool, expiresAt: nat)

  datatype Session = Session(user: Name, expiresAt: nat)

  datatype FlowStatus = Waiting | Approved(user: Name) | Consumed

  datatype Flow = Flow(status: FlowStatus, expiresAt: nat)

  /** The claims of an access token; signing and verifying are taken for granted. */
  datatype AccessToken = AccessToken(user: Name, tokenVersion: nat, expiresAt: nat)

  datatype Origin = FromRefresh(token: Name) | FromFlow(flow: Name)

  /** A pair that was handed out: where it came from, the access token, and the refresh token's name. */
  datatype Issue = Issue(origin: Origin, access: AccessToken, refresh: Name)

  /** The accounts in the database, and two records kept for the proofs: pairs handed out and session ids ever used. */
  datatype Accounts = Accounts(users: map<Name, User>, refresh: map<Name, RefreshToken>, sessions: map<Name, Session>,
    flows: map<Name, Flow>, issued: seq<Issue>, sessionIds: set<Name>)

  /** What a refresh or a poll read before its transaction: its token or flow, and the user as read. */
  datatype Request = Request(origin: Origin, user: Name, tokenVersion: nat)

  datatype Lifetimes = Lifetimes(access: nat, refresh: nat, session: nat, flow: nat)

  // ---------------------------------------------------------------- what is accepted

  predicate AcceptsAccess(s: Accounts, a: AccessToken, now: nat) {
    && a.expiresAt > now && a.user in s.users && !s.users[a.user].disabled
    && a.tokenVersion == s.users[a.user].tokenVersion
  }

  predicate AcceptsRefresh(s: Accounts, token: Name, now: nat) {
    && token in s.refresh && !s.refresh[token].revoked && s.refresh[token].expiresAt > now
    && s.refresh[token].user in s.users && !s.users[s.refresh[token].user].disabled
  }

  predicate AcceptsSession(s: Accounts, id: Name, now: nat) {
    && id in s.sessions && s.sessions[id].expiresAt > now
    && s.sessions[id].user in s.users && !s.users[s.sessions[id].user].disabled
  }

  predicate LiveRefresh(s: Accounts, user: Name) {
    exists t :: t in s.refresh && s.refresh[t].user == user && !s.refresh[t].revoked
  }

  // ---------------------------------------------------------------- operations

  function RevokeRefresh(refresh: map<Name, RefreshToken>, user: Name): map<Name, RefreshToken> {
    map t | t in refresh :: if refresh[t].user == user then refresh[t].(revoked := true) else refresh[t]
  }

  /** Presenting a revoked token is taken for theft and revokes them all; a good one starts a refresh. */
  function ReadForRefresh(s: Accounts, token: Name, now: nat): (Accounts, Option<Request>) {
    if token !in s.refresh || s.refresh[token].user !in s.users then (s, None)
    else
      var row := s.refresh[token];
      var user := s.users[row.user];
      if row.revoked then (s.(refresh := RevokeRefresh(s.refresh, row.user)), None)
      else if row.expiresAt <= now || user.disabled then (s, None)
      else (s, Some(Request(FromRefresh(token), row.user, user.tokenVersion)))
  }

  /** Inserts the refresh token and signs the access token with the version read before. */
  function IssuePair(s: Accounts, r: Request, name: Name, now: nat, ttl: Lifetimes): Accounts {
    s.(refresh := s.refresh[name := RefreshToken(r.user, false, now + ttl.refresh)],
       issued := s.issued + [Issue(r.origin, AccessToken(r.user, r.tokenVersion, now + ttl.access), name)])
  }

  /** The refresh transaction: claims the token if nobody revoked it meanwhile, then issues its successor. */
  function ClaimRefresh(s: Accounts, r: Request, name: Name, now: nat, ttl: Lifetimes): Accounts
    requires r.origin.FromRefresh?
  {
    var t := r.origin.token;
    if t !in s.refresh || s.refresh[t].revoked || name in s.refresh then s
    else IssuePair(s.(refresh := s.refresh[t := s.refresh[t].(revoked := true)]), r, name, now, ttl)
  }

  function ReadForPoll(s: Accounts, flow: Name, now: nat): (Accounts, Option<Request>) {
    if flow !in s.flows || s.flows[flow].expiresAt <= now || !s.flows[flow].status.Approved? then (s, None)
    else
      var name := s.flows[flow].status.user;
      if name !in s.users || s.users[name].disabled then (s, None)
      else if s.users[name].mustChangePassword then (s.(flows := s.flows[flow := s.flows[flow].(status := Consumed)]),
          None)
      else (s, Some(Request(FromFlow(flow), name, s.users[name].tokenVersion)))
  }

  /** The poll transaction: consumes the flow if it is still approved, then issues the pair. */
  function ClaimFlow(s: Accounts, r: Request, name: Name, now: nat, ttl: Lifetimes): Accounts
    requires r.origin.FromFlow?
  {
    var f := r.origin.flow;
    if f !in s.flows || !s.flows[f].status.Approved? || name in s.refresh then s
    else IssuePair(s.(flows := s.flows[f := s.flows[f].(status := Consumed)]), r, name, now, ttl)
  }

  function Claim(s: Accounts, r: Request, name: Name, now: nat, ttl: Lifetimes): Accounts {
    if r.origin.FromRefresh? then ClaimRefresh(s, r, name, now, ttl) else ClaimFlow(s, r, name, now, ttl)
  }

  /** Revokes every refresh token, deletes every session but the kept one, and raises the token version. */
  function RevokeAll(s: Accounts, user: Name, keep: Option<Name>): Accounts {
    if user !in s.users then s
    else
      s.(refresh := RevokeRefresh(s.refresh, user),
         sessions := map i | i in s.sessions && (s.sessions[i].user != user || keep == Some(i)) :: s.sessions[i],
         users := s.users[user := s.users[user].(tokenVersion := s.users[user].tokenVersion + 1)])
  }

  function Logout(s: Accounts, token: Name): Accounts {
    if token in s.refresh then s.(refresh := s.refresh[token := s.refresh[token].(revoked := true)]) else s
  }

  function Approve(s: Accounts, flow: Name, user: Name, now: nat): Accounts {
    if flow !in s.flows || s.flows[flow].expiresAt <= now || s.flows[flow].status != Waiting then s
    else s.(flows := s.flows[flow := s.flows[flow].(status := Approved(user))])
  }

  /** Everything that can happen; names and ids made up by the server are new. */
  datatype Event =
    | AddUser(user: Name)
    | SignIn(user: Name, id: Name)
    | SignOut(id: Name)
    | StartFlow(flow: Name)
    | ApproveFlow(flow: Name, user: Name)
    | BeginRefresh(token: Name)
    | BeginPoll(flow: Name)
    | Finish(i: nat, name: Name)
    | LogoutToken(token: Name)
    | ChangePassword(user: Name, keep: Option<Name>)
    | ResetPassword(user: Name)
    | Disable(user: Name)
    | Enable(user: Name)

  datatype Service = Service(accounts: Accounts, requests: seq<Request>)

  function SetUser(s: Accounts, name: Name, u: User): Accounts {
    s.(users := s.users[name := u])
  }

  function Begin(v: Service, read: (Accounts, Option<Request>)): Service {
    Service(read.0, v.requests + if read.1.Some? then [read.1.value] else [])
  }

  function Turn(v: Service, e: Event, now: nat, ttl: Lifetimes): Service {
    var s := v.accounts;
    match e
    case AddUser(u) => if u in s.users then v else v.(accounts := SetUser(s, u, User(0, false, false)))
    case SignIn(u, id) =>
      if u !in s.users || s.users[u].disabled || id in s.sessionIds then v
      else v.(accounts := s.(sessions := s.sessions[id := Session(u, now + ttl.session)],
          sessionIds := s.sessionIds + {id}))
    case SignOut(id) => v.(accounts := s.(sessions := s.sessions - {id}))
    case StartFlow(f) => if f in s.flows then v else v.(accounts := s.(flows := s.flows[f := Flow(Waiting,
        now + ttl.flow)]))
    case ApproveFlow(f, u) => if u in s.users then v.(accounts := Approve(s, f, u, now)) else v
    case BeginRefresh(t) => Begin(v, ReadForRefresh(s, t, now))
    case BeginPoll(f) => Begin(v, ReadForPoll(s, f, now))
    case Finish(i, name) => if i < |v.requests| then v.(accounts := Claim(s, v.requests[i], name, now, ttl)) else v
    case LogoutToken(t) => v.(accounts := Logout(s, t))
    case ChangePassword(u, keep) =>
      if u !in s.users then v else v.(accounts := RevokeAll(SetUser(s, u, s.users[u].(mustChangePassword := false)), u, keep))
    case ResetPassword(u) =>
      if u !in s.users then v else v.(accounts := RevokeAll(SetUser(s, u, s.users[u].(mustChangePassword := true)), u, None))
    case Disable(u) =>
      if u !in s.users then v else v.(accounts := RevokeAll(SetUser(s, u, s.users[u].(disabled := true)), u, None))
    case Enable(u) => if u !in s.users then v else v.(accounts := SetUser(s, u, s.users[u].(disabled := false)))
  }

  /** A run: every event with the time it happened at. Requests stay listed, as if a finished one were tried again. */
  function After(v: Service, events: seq<(Event, nat)>, ttl: Lifetimes): Service {
    if events == [] then v
    else
      var (e, now) := events[|events| - 1];
      Turn(After(v, events[..|events| - 1], ttl), e, now, ttl)
  }

  const NEW := Service(Accounts(map[], map[], map[], map[], [], {}), [])

  // ---------------------------------------------------------------- what every event keeps

  ghost predicate IssuedFits(s: Accounts) {
    && (forall i :: 0 <= i < |s.issued| ==> AccessFits(s, s.issued[i].access))
    && (forall i, j :: 0 <= i < j < |s.issued| ==> s.issued[i].origin != s.issued[j].origin)
    && (forall i :: 0 <= i < |s.issued| ==> Spent(s, s.issued[i].origin))
  }

  predicate AccessFits(s: Accounts, a: AccessToken) {
    a.user in s.users && a.tokenVersion <= s.users[a.user].tokenVersion
  }

  /** The token or flow can no longer be claimed. */
  predicate Spent(s: Accounts, o: Origin) {
    match o
    case FromRefresh(t) => t in s.refresh && s.refresh[t].revoked
    case FromFlow(f) => f in s.flows && s.flows[f].status == Consumed
  }

  /** A request for a token that is still good read the version its user still has; one for a flow, who approved it. */
  ghost predicate RequestFits(s: Accounts, r: Request) {
    && r.user in s.users && r.tokenVersion <= s.users[r.user].tokenVersion
    && match r.origin
       case FromRefresh(t) =>
         t in s.refresh && s.refresh[t].user == r.user
         && (!s.refresh[t].revoked ==> r.tokenVersion == s.users[r.user].tokenVersion)
       case FromFlow(f) => f in s.flows && (s.flows[f].status == Approved(r.user) || s.flows[f].status == Consumed)
  }

  ghost predicate Fits(v: Service) {
    && IssuedFits(v.accounts)
    && (forall i :: 0 <= i < |v.requests| ==> RequestFits(v.accounts, v.requests[i]))
    && (forall id :: id in v.accounts.sessions ==> id in v.accounts.sessionIds)
  }

  /** A token keeps its user, stays revoked, and while it is good its user's version stays the same. */
  predicate TokenOnward(s: Accounts, t: Accounts, k: Name)
    requires k in s.refresh && k in t.refresh
  {
    var u := s.refresh[k].user;
    && t.refresh[k].user == u && (s.refresh[k].revoked ==> t.refresh[k].revoked)
    && (!t.refresh[k].revoked && u in s.users && u in t.users ==> t.users[u].tokenVersion == s.users[u].tokenVersion)
  }

  predicate FlowOnward(was: FlowStatus, status: FlowStatus) {
    was == Waiting || status == was || status == Consumed
  }

  /** What may happen to one user's, token's or flow's record in one event: versions rise, the spent stays spent. */
  ghost predicate Onward(s: Accounts, t: Accounts) {
    && (forall u :: u in s.users ==> u in t.users && s.users[u].tokenVersion <= t.users[u].tokenVersion)
    && (forall k :: k in s.refresh ==> k in t.refresh && TokenOnward(s, t, k))
    && (forall f :: f in s.flows ==> f in t.flows && FlowOnward(s.flows[f].status, t.flows[f].status))
    && s.issued <= t.issued
    && s.sessionIds <= t.sessionIds
    && (forall id :: id in t.sessions && id !in s.sessions ==> id !in s.sessionIds)
  }

  lemma ReadsAreOnward(s: Accounts, name: Name, now: nat)
    ensures Onward(s, ReadForRefresh(s, name, now).0) && Onward(s, ReadForPoll(s, name, now).0)
  {}

  lemma ClaimIsOnward(s: Accounts, r: Request, name: Name, now: nat, ttl: Lifetimes)
    ensures Onward(s, Claim(s, r, name, now, ttl))
  {}

  lemma RevokeAllIsOnward(s: Accounts, name: Name, u: User, keep: Option<Name>)
    requires name in s.users && u.tokenVersion == s.users[name].tokenVersion
    ensures Onward(s, RevokeAll(SetUser(s, name, u), name, keep))
  {}

  lemma TurnIsOnward(v: Service, e: Event, now: nat, ttl: Lifetimes)
    ensures Onward(v.accounts, Turn(v, e, now, ttl).accounts)
  {
    var s := v.accounts;
    match e
    case BeginRefresh(t) => ReadsAreOnward(s, t, now);
    case BeginPoll(f) => ReadsAreOnward(s, f, now);
    case Finish(i, name) => if i < |v.requests| { ClaimIsOnward(s, v.requests[i], name, now, ttl); }
    case ChangePassword(u, keep) => if u in s.users { RevokeAllIsOnward(s, u,
        s.users[u].(mustChangePassword := false), keep); }
    case ResetPassword(u) => if u in s.users { RevokeAllIsOnward(s, u, s.users[u].(mustChangePassword := true), None); }
    case Disable(u) => if u in s.users { RevokeAllIsOnward(s, u, s.users[u].(disabled := true), None); }
    case _ =>
  }

  lemma OnwardKeepsRequest(s: Accounts, t: Accounts, r: Request)
    requires Onward(s, t) && RequestFits(s, r)
    ensures RequestFits(t, r)
  {}

  lemma OnwardKeepsSpent(s: Accounts, t: Accounts, o: Origin)
    requires Onward(s, t) && Spent(s, o)
    ensures Spent(t, o)
  {}

  /** A claim that goes through spends its origin, which nothing issued before came from. */
  lemma ClaimIssuesOnce(s: Accounts, r: Request, name: Name, now: nat, ttl: Lifetimes)
    requires IssuedFits(s) && RequestFits(s, r)
    ensures IssuedFits(Claim(s, r, name, now, ttl))
    ensures var t := Claim(s, r, name, now, ttl);
      t.issued == s.issued || (t.issued == s.issued + [Issue(r.origin, AccessToken(r.user, r.tokenVersion,
          now + ttl.access), name)]
        && !Spent(s, r.origin) && Spent(t, r.origin))
  {
    var t := Claim(s, r, name, now, ttl);
    if t.issued != s.issued {
      forall i | 0 <= i < |s.issued| ensures t.issued[i] == s.issued[i] && Spent(t, t.issued[i].origin) && t.issued[i].origin != r.origin {
        assert Spent(s, s.issued[i].origin);
      }
    }
  }

  lemma TurnKeepsIssued(v: Service, e: Event, now: nat, ttl: Lifetimes)
    requires Fits(v)
    ensures IssuedFits(Turn(v, e, now, ttl).accounts)
  {
    var s, t := v.accounts, Turn(v, e, now, ttl).accounts;
    TurnIsOnward(v, e, now, ttl);
    if e.Finish? && e.i < |v.requests| {
      ClaimIssuesOnce(s, v.requests[e.i], e.name, now, ttl);
    } else {
      assert t.issued == s.issued;
      forall i | 0 <= i < |s.issued| ensures AccessFits(t, s.issued[i].access) && Spent(t, s.issued[i].origin) {
        assert AccessFits(s, s.issued[i].access);
        OnwardKeepsSpent(s, t, s.issued[i].origin);
      }
    }
  }

  lemma TurnKeepsFits(v: Service, e: Event, now: nat, ttl: Lifetimes)
    requires Fits(v)
    ensures Fits(Turn(v, e, now, ttl))
  {
    var w := Turn(v, e, now, ttl);
    TurnIsOnward(v, e, now, ttl);
    TurnKeepsIssued(v, e, now, ttl);
    forall i | 0 <= i < |w.requests| ensures RequestFits(w.accounts, w.requests[i]) {
      if i < |v.requests| { OnwardKeepsRequest(v.accounts, w.accounts, v.requests[i]); }
    }
  }

  lemma {:induction false} RunFits(events: seq<(Event, nat)>, ttl: Lifetimes)
    ensures Fits(After(NEW, events, ttl))
  {
    if events != [] {
      RunFits(events[..|events| - 1], ttl);
      TurnKeepsFits(After(NEW, events[..|events| - 1], ttl), events[|events| - 1].0, events[|events| - 1].1, ttl);
    }
  }

  lemma OnwardTransitive(s: Accounts, t: Accounts, u: Accounts)
    requires Onward(s, t) && Onward(t, u)
    ensures Onward(s, u)
  {
    forall k | k in s.refresh ensures TokenOnward(s, u, k) { assert TokenOnward(s, t, k) && TokenOnward(t, u, k); }
  }

  lemma {:induction false} RunIsOnward(v: Service, events: seq<(Event, nat)>, ttl: Lifetimes)
    ensures Onward(v.accounts, After(v, events, ttl).accounts)
  {
    if events != [] {
      var w := After(v, events[..|events| - 1], ttl);
      RunIsOnward(v, events[..|events| - 1], ttl);
      TurnIsOnward(w, events[|events| - 1].0, events[|events| - 1].1, ttl);
      OnwardTransitive(v.accounts, w.accounts, After(v, events, ttl).accounts);
    }
  }

  // ---------------------------------------------------------------- the promises

  /** Whatever happens, each refresh token has at most one successor and each device flow hands out at most one pair. */
  lemma AtMostOnePair(events: seq<(Event, nat)>, ttl: Lifetimes, i: nat, j: nat)
    requires i < j < |After(NEW, events, ttl).accounts.issued|
    ensures After(NEW, events, ttl).accounts.issued[i].origin != After(NEW, events, ttl).accounts.issued[j].origin
  {
    RunFits(events, ttl);
  }

  /** A refresh starts exactly for a token that is accepted, and reads its user's current version. */
  lemma RefreshStartsExactly(s: Accounts, token: Name, now: nat)
    ensures ReadForRefresh(s, token, now).1.Some? <==> AcceptsRefresh(s, token, now)
    ensures ReadForRefresh(s, token, now).1.Some? ==>
      ReadForRefresh(s, token, now) == (s, Some(Request(FromRefresh(token), s.refresh[token].user,
          s.users[s.refresh[token].user].tokenVersion)))
  {}

  /** An undisturbed refresh hands over: the old token is spent, the new pair is accepted for its lifetime. */
  lemma RefreshHandsOver(s: Accounts, token: Name, name: Name, now: nat, ttl: Lifetimes, at: nat)
    requires AcceptsRefresh(s, token, now) && name !in s.refresh
    ensures var t := ClaimRefresh(s, ReadForRefresh(s, token, now).1.value, name, now, ttl);
      && !AcceptsRefresh(t, token, at) && (AcceptsRefresh(t, name, at) <==> at < now + ttl.refresh)
      && |t.issued| == |s.issued| + 1 && (AcceptsAccess(t, t.issued[|s.issued|].access, at) <==> at < now + ttl.access)
  {
    assert name != token;
  }

  /** A poll starts exactly for a flow in time that was approved by someone who may sign in; it is used up by its pair. */
  lemma PollHandsOver(s: Accounts, flow: Name, name: Name, now: nat, ttl: Lifetimes, at: nat)
    requires name !in s.refresh
    ensures ReadForPoll(s, flow, now).1.Some? <==>
      exists u :: u in s.users && flow in s.flows && s.flows[flow].status == Approved(u) && now < s.flows[flow].expiresAt
        && !s.users[u].disabled && !s.users[u].mustChangePassword
    ensures ReadForPoll(s, flow, now).1.Some? ==>
      var t := ClaimFlow(s, ReadForPoll(s, flow, now).1.value, name, now, ttl);
      && ReadForPoll(t, flow, at).1 == None && (AcceptsRefresh(t, name, at) <==> at < now + ttl.refresh)
      && |t.issued| == |s.issued| + 1 && (AcceptsAccess(t, t.issued[|s.issued|].access, at) <==> at < now + ttl.access)
  {
    if flow in s.flows && s.flows[flow].status.Approved? { assert s.flows[flow].status == Approved(s.flows[flow].status.user); }
  }

  /** Over every run a pair goes to the user who approved its flow, or whose token it was given for. */
  lemma PairsGoToTheirOwner(events: seq<(Event, nat)>, ttl: Lifetimes, i: nat, name: Name, now: nat)
    requires i < |After(NEW, events, ttl).requests|
    ensures var s, t := After(NEW, events, ttl).accounts, Turn(After(NEW, events, ttl), Finish(i, name), now, ttl).accounts;
      t.issued == s.issued ||
        (|t.issued| == |s.issued| + 1
        && var issue := t.issued[|s.issued|];
           && name !in s.refresh && name in t.refresh && t.refresh[name].user == issue.access.user
           && match issue.origin
              case FromFlow(f) => f in s.flows && s.flows[f].status == Approved(issue.access.user)
              case FromRefresh(k) => k in s.refresh && s.refresh[k].user == issue.access.user && !s.refresh[k].revoked)
  {
    RunFits(events, ttl);
    var v := After(NEW, events, ttl);
    assert RequestFits(v.accounts, v.requests[i]);
    ClaimIssuesOnce(v.accounts, v.requests[i], name, now, ttl);
  }

  /** A flow is approved exactly by its user's approval in time, while it waits. */
  lemma ApprovedExactly(v: Service, e: Event, now: nat, ttl: Lifetimes, flow: Name, user: Name)
    requires flow in v.accounts.flows && v.accounts.flows[flow].status != Approved(user)
    ensures var s, t := v.accounts, Turn(v, e, now, ttl).accounts;
      flow in t.flows &&
      (t.flows[flow].status == Approved(user) <==>
        e == ApproveFlow(flow, user) && user in s.users && s.flows[flow].status == Waiting && now < s.flows[flow].expiresAt)
  {
    TurnIsOnward(v, e, now, ttl);
  }

  /** A token logged out is never accepted again, nor does a refresh of it under way come to anything; others are left alone. */
  lemma LogoutIsFinal(v: Service, token: Name, now: nat, later: seq<(Event, nat)>, ttl: Lifetimes, at: nat)
    requires token in v.accounts.refresh
    ensures var w := Turn(v, LogoutToken(token), now, ttl);
      var end := After(w, later, ttl);
      && !AcceptsRefresh(end.accounts, token, at)
      && (forall i, name :: 0 <= i < |end.requests| && end.requests[i].origin == FromRefresh(token) ==>
            Turn(end, Finish(i, name), at, ttl) == end)
      && (forall t :: t != token ==> (AcceptsRefresh(w.accounts, t, at) <==> AcceptsRefresh(v.accounts, t, at)))
      && w == v.(accounts := v.accounts.(refresh := w.accounts.refresh))
  {
    var w := Turn(v, LogoutToken(token), now, ttl);
    RunIsOnward(w, later, ttl);
    assert TokenOnward(w.accounts, After(w, later, ttl).accounts, token);
  }

  /** A session signed out is never accepted again; others are left alone. */
  lemma SignOutIsFinal(v: Service, id: Name, now: nat, later: seq<(Event, nat)>, ttl: Lifetimes, at: nat)
    requires Fits(v) && id in v.accounts.sessions
    ensures var w := Turn(v, SignOut(id), now, ttl);
      && !AcceptsSession(After(w, later, ttl).accounts, id, at)
      && (forall i :: i != id ==> (AcceptsSession(w.accounts, i, at) <==> AcceptsSession(v.accounts, i, at)))
      && w == v.(accounts := v.accounts.(sessions := w.accounts.sessions))
  {
    var w := Turn(v, SignOut(id), now, ttl);
    RunIsOnward(w, later, ttl);
    assert id in v.accounts.sessionIds && id !in w.accounts.sessions;
  }

  /** A sign-in gives a session for its lifetime, to anyone not disabled or enabled again. */
  lemma SignInLasts(v: Service, user: Name, id: Name, now: nat, ttl: Lifetimes, at: nat)
    requires id !in v.accounts.sessionIds && Fits(v)
    ensures var s := v.accounts;
      AcceptsSession(Turn(v, SignIn(user, id), now, ttl).accounts, id, at) <==>
        user in s.users && !s.users[user].disabled && at < now + ttl.session
    ensures var w := Turn(v, Enable(user), now, ttl);
      AcceptsSession(Turn(w, SignIn(user, id), now, ttl).accounts, id, at) <==> user in v.accounts.users && at < now + ttl.session
  {}

  /** A flow waits for its approval for its lifetime, and a password change makes way for a sign-in again. */
  lemma FlowWaits(v: Service, flow: Name, user: Name, keep: Option<Name>, now: nat, ttl: Lifetimes, at: nat)
    requires flow !in v.accounts.flows
    ensures var w := Turn(Turn(Turn(v, StartFlow(flow), now, ttl), ApproveFlow(flow, user), at, ttl), ChangePassword(user, keep), at, ttl);
      ReadForPoll(w.accounts, flow, at).1.Some? <==>
        user in v.accounts.users && !v.accounts.users[user].disabled && at < now + ttl.flow
  {}

  predicate MustChange(s: Accounts, user: Name) {
    user in s.users && s.users[user].mustChangePassword
  }

  lemma TurnKeepsMustChange(v: Service, e: Event, now: nat, ttl: Lifetimes, user: Name)
    requires MustChange(v.accounts, user) && !(e.ChangePassword? && e.user == user)
    ensures MustChange(Turn(v, e, now, ttl).accounts, user)
  {}

  /** After an administrator's reset no sign-in starts for the user until the password is changed. */
  lemma {:induction false} ResetHoldsUntilChange(v: Service, events: seq<(Event, nat)>, ttl: Lifetimes, user: Name, now: nat,
      flow: Name, at: nat)
    requires user in v.accounts.users
    requires forall n :: 0 <= n < |events| ==> !(events[n].0.ChangePassword? && events[n].0.user == user)
    ensures var s := After(Turn(v, ResetPassword(user), now, ttl), events, ttl).accounts;
      MustChange(s, user) && (ReadForPoll(s, flow, at).1.Some? ==> ReadForPoll(s, flow, at).1.value.user != user)
    decreases |events|
  {
    if events != [] {
      var m := |events| - 1;
      ResetHoldsUntilChange(v, events[..m], ttl, user, now, flow, at);
      TurnKeepsMustChange(After(Turn(v, ResetPassword(user), now, ttl), events[..m], ttl), events[m].0, events[m].1, ttl, user);
    }
  }

  predicate Disabled(s: Accounts, user: Name) {
    user in s.users && s.users[user].disabled
  }

  lemma TurnKeepsDisabled(v: Service, e: Event, now: nat, ttl: Lifetimes, user: Name)
    requires Disabled(v.accounts, user) && e != Enable(user)
    ensures Disabled(Turn(v, e, now, ttl).accounts, user)
  {}

  /** A disabled user gets in by nothing, old or new, until enabled again. */
  lemma {:induction false} DisabledIsLockedOut(v: Service, events: seq<(Event, nat)>, ttl: Lifetimes, user: Name, now: nat, name: Name,
      a: AccessToken, at: nat)
    requires user in v.accounts.users && forall n :: 0 <= n < |events| ==> events[n].0 != Enable(user)
    ensures var s := After(Turn(v, Disable(user), now, ttl), events, ttl).accounts;
      && Disabled(s, user) && (a.user == user ==> !AcceptsAccess(s, a, at))
      && (name in s.refresh && s.refresh[name].user == user ==> !AcceptsRefresh(s, name, at))
      && (name in s.sessions && s.sessions[name].user == user ==> !AcceptsSession(s, name, at))
    decreases |events|
  {
    if events != [] {
      var m := |events| - 1;
      DisabledIsLockedOut(v, events[..m], ttl, user, now, name, a, at);
      TurnKeepsDisabled(After(Turn(v, Disable(user), now, ttl), events[..m], ttl), events[m].0, events[m].1, ttl, user);
    }
  }

  /** Presenting a used token again leaves its user without a single live refresh token. */
  lemma ReuseRevokesAll(s: Accounts, token: Name, now: nat)
    requires token in s.refresh && s.refresh[token].revoked && s.refresh[token].user in s.users
    ensures !LiveRefresh(ReadForRefresh(s, token, now).0, s.refresh[token].user)
  {}

  /** Without live refresh tokens only a device sign-in gives the user a new one: refreshes in flight come to nothing. */
  lemma {:induction false} NoneLiveUntilSignIn(v: Service, events: seq<(Event, nat)>, ttl: Lifetimes, user: Name)
    requires Fits(v) && !LiveRefresh(v.accounts, user)
    requires forall n :: 0 <= n < |events| ==> !PollFinishes(After(v, events[..n], ttl), events[n].0, user)
    ensures Fits(After(v, events, ttl)) && !LiveRefresh(After(v, events, ttl).accounts, user)
  {
    if events != [] {
      var m := |events| - 1;
      forall n | 0 <= n < m ensures !PollFinishes(After(v, events[..m][..n], ttl), events[..m][n].0, user) {
        assert events[..m][..n] == events[..n];
        assert !PollFinishes(After(v, events[..n], ttl), events[n].0, user);
      }
      NoneLiveUntilSignIn(v, events[..m], ttl, user);
      var w := After(v, events[..m], ttl);
      TurnKeepsFits(w, events[m].0, events[m].1, ttl);
      assert !PollFinishes(After(v, events[..m], ttl), events[m].0, user);
      TurnMakesNoneLive(w, events[m].0, events[m].1, ttl, user);
    }
  }

  predicate PollFinishes(v: Service, e: Event, user: Name) {
    e.Finish? && e.i < |v.requests| && v.requests[e.i].origin.FromFlow? && v.requests[e.i].user == user
  }

  lemma TurnMakesNoneLive(v: Service, e: Event, now: nat, ttl: Lifetimes, user: Name)
    requires Fits(v) && !LiveRefresh(v.accounts, user) && !PollFinishes(v, e, user)
    ensures !LiveRefresh(Turn(v, e, now, ttl).accounts, user)
  {
    var s, t := v.accounts, Turn(v, e, now, ttl).accounts;
    TurnIsOnward(v, e, now, ttl);
    if e.Finish? && e.i < |v.requests| {
      assert RequestFits(s, v.requests[e.i]);
    }
    forall k | k in t.refresh && t.refresh[k].user == user ensures t.refresh[k].revoked {
      if k in s.refresh { assert TokenOnward(s, t, k) && s.refresh[k].revoked; }
    }
  }

  /** What is revoked stays so, whatever happens later and whenever it is presented. */
  lemma RevokedIsFinal(history: seq<(Event, nat)>, name: Name, u: User, keep: Option<Name>, later: seq<(Event,
      nat)>, ttl: Lifetimes, now: nat)
    requires var s := After(NEW, history, ttl).accounts; name in s.users && u.tokenVersion == s.users[name].tokenVersion
    ensures var v := After(NEW, history, ttl);
      var s := v.accounts;
      var end := After(v.(accounts := RevokeAll(SetUser(s, name, u), name, keep)), later, ttl).accounts;
      && (forall i :: 0 <= i < |s.issued| && s.issued[i].access.user == name ==> !AcceptsAccess(end, s.issued[i].access, now))
      && (forall t :: t in s.refresh && s.refresh[t].user == name ==> !AcceptsRefresh(end, t, now))
      && (forall id :: id in s.sessions && s.sessions[id].user == name && keep != Some(id) ==> !AcceptsSession(end, id, now))
  {
    var v := After(NEW, history, ttl);
    var s, t := v.accounts, RevokeAll(SetUser(v.accounts, name, u), name, keep);
    var end := After(v.(accounts := t), later, ttl).accounts;
    RunFits(history, ttl);
    RevokeAllIsOnward(s, name, u, keep);
    RunIsOnward(v.(accounts := t), later, ttl);
    forall i | 0 <= i < |s.issued| && s.issued[i].access.user == name ensures !AcceptsAccess(end, s.issued[i].access, now) {
      assert AccessFits(s, s.issued[i].access);
    }
    forall k | k in s.refresh && s.refresh[k].user == name ensures !AcceptsRefresh(end, k, now) {
      assert t.refresh[k].revoked && TokenOnward(t, end, k);
    }
    forall id | id in s.sessions && s.sessions[id].user == name && keep != Some(id) ensures id !in end.sessions {
      assert id !in t.sessions && id in s.sessionIds;
    }
  }

  /** An event that signs the user out everywhere, but for the session to keep. */
  predicate SignsOut(e: Event, user: Name, keep: Option<Name>) {
    e == ChangePassword(user, keep) || (keep == None && (e == ResetPassword(user) || e == Disable(user)))
  }

  /**
   * A password change, a reset and a disabling are final: no access token handed out before, no refresh token that existed
   * and no session but the kept one is ever accepted again, whatever happens later and whenever it is presented.
   */
  lemma RevocationIsFinal(history: seq<(Event, nat)>, e: Event, when: nat, name: Name, keep: Option<Name>,
      later: seq<(Event, nat)>, ttl: Lifetimes, now: nat)
    requires SignsOut(e, name, keep) && name in After(NEW, history, ttl).accounts.users
    ensures var v := After(NEW, history, ttl);
      var s, end := v.accounts, After(Turn(v, e, when, ttl), later, ttl).accounts;
      && (forall i :: 0 <= i < |s.issued| && s.issued[i].access.user == name ==> !AcceptsAccess(end, s.issued[i].access, now))
      && (forall t :: t in s.refresh && s.refresh[t].user == name ==> !AcceptsRefresh(end, t, now))
      && (forall id :: id in s.sessions && s.sessions[id].user == name && keep != Some(id) ==> !AcceptsSession(end, id, now))
  {
    var s := After(NEW, history, ttl).accounts;
    var u := s.users[name];
    var after := match e
      case ChangePassword(_, _) => u.(mustChangePassword := false)
      case ResetPassword(_) => u.(mustChangePassword := true)
      case _ => u.(disabled := true);
    RevokedIsFinal(history, name, after, keep, later, ttl, now);
  }

  /** Signing a user out everywhere spares the kept session and everyone else, and so does a token used twice. */
  lemma RevocationSparesOthers(s: Accounts, name: Name, keep: Option<Name>, other: Name, now: nat)
    requires name in s.users && (other in s.sessions && s.sessions[other].user == name ==> keep == Some(other))
    ensures var t := RevokeAll(s, name, keep);
      && (AcceptsSession(t, other, now) <==> AcceptsSession(s, other, now))
      && (forall k :: k in s.refresh && s.refresh[k].user != name ==> (AcceptsRefresh(t, k, now) <==> AcceptsRefresh(s, k, now)))
      && (forall a: AccessToken :: a.user != name ==> (AcceptsAccess(t, a, now) <==> AcceptsAccess(s, a, now)))
    ensures other in s.refresh && s.refresh[other].user == name ==>
      forall k :: k in s.refresh && s.refresh[k].user != name ==>
        (AcceptsRefresh(ReadForRefresh(s, other, now).0, k, now) <==> AcceptsRefresh(s, k, now))
  {}

  /** A refresh reads the user before its transaction and still never signs an outdated version. */
  lemma RefreshIsNeverStale(events: seq<(Event, nat)>, ttl: Lifetimes, i: nat, name: Name, now: nat)
    requires i < |After(NEW, events, ttl).requests| && After(NEW, events, ttl).requests[i].origin.FromRefresh?
    ensures var v := After(NEW, events, ttl);
      var s, t := v.accounts, Turn(v, Finish(i, name), now, ttl).accounts;
      t.issued != s.issued ==>
        var a := t.issued[|s.issued|].access;
        |t.issued| == |s.issued| + 1 && a.user in t.users && a.tokenVersion == t.users[a.user].tokenVersion
  {
    RunFits(events, ttl);
    var v := After(NEW, events, ttl);
    assert RequestFits(v.accounts, v.requests[i]);
    ClaimIssuesOnce(v.accounts, v.requests[i], name, now, ttl);
  }

  /** A poll may: its access token is outdated exactly when the user's version rose since the poll read it, and is never accepted then. */
  lemma PollIsStaleExactly(v: Service, i: nat, name: Name, now: nat, later: seq<(Event, nat)>, ttl: Lifetimes, at: nat)
    requires Fits(v) && i < |v.requests| && v.requests[i].origin.FromFlow?
    requires Turn(v, Finish(i, name), now, ttl).accounts.issued != v.accounts.issued
    ensures var w := Turn(v, Finish(i, name), now, ttl);
      var r, a := v.requests[i], w.accounts.issued[|v.accounts.issued|].access;
      && a.user == r.user && a.user in w.accounts.users
      && (a.tokenVersion < w.accounts.users[a.user].tokenVersion <==> r.tokenVersion != v.accounts.users[r.user].tokenVersion)
      && (a.tokenVersion < w.accounts.users[a.user].tokenVersion ==> !AcceptsAccess(After(w, later, ttl).accounts, a, at))
  {
    var w := Turn(v, Finish(i, name), now, ttl);
    assert RequestFits(v.accounts, v.requests[i]);
    ClaimIssuesOnce(v.accounts, v.requests[i], name, now, ttl);
    RunIsOnward(w, later, ttl);
  }

  /**
   * Signing a user out everywhere does not reach sign-ins under way. A poll that was read before still gives its user a
   * live refresh token exactly when its flow is not used up and the user is not disabled; the access token that comes
   * with it is never accepted.
   */
  lemma PollOutlivesRevocation(v: Service, name: Name, u: User, keep: Option<Name>, i: nat, token: Name, now: nat,
      later: seq<(Event, nat)>, ttl: Lifetimes, at: nat)
    requires Fits(v) && name in v.accounts.users && u.tokenVersion == v.accounts.users[name].tokenVersion
    requires i < |v.requests| && v.requests[i].origin.FromFlow? && v.requests[i].user == name
    requires token !in v.accounts.refresh && ttl.refresh > 0
    ensures var s := v.accounts;
      var w := v.(accounts := RevokeAll(SetUser(s, name, u), name, keep));
      var end := Turn(w, Finish(i, token), now, ttl);
      && (AcceptsRefresh(end.accounts, token, now) <==> s.flows[v.requests[i].origin.flow].status.Approved? && !u.disabled)
      && (end.accounts.issued != s.issued ==>
            !AcceptsAccess(After(end, later, ttl).accounts, end.accounts.issued[|s.issued|].access, at))
  {
    var s, r := v.accounts, v.requests[i];
    assert RequestFits(s, r);
    var w := v.(accounts := RevokeAll(SetUser(s, name, u), name, keep));
    var end := Turn(w, Finish(i, token), now, ttl);
    RunIsOnward(end, later, ttl);
  }

  /** A flow approved before the sign-out still starts a sign-in afterwards exactly as if nothing had happened. */
  lemma ApprovalOutlivesRevocation(s: Accounts, name: Name, u: User, keep: Option<Name>, flow: Name, now: nat)
    requires name in s.users && flow in s.flows && s.flows[flow].status == Approved(name)
    ensures var t := RevokeAll(SetUser(s, name, u), name, keep);
      ReadForPoll(t, flow, now).1.Some? <==> s.flows[flow].expiresAt > now && !u.disabled && !u.mustChangePassword
  {}

  /** A sign-in that is polled, a password change, and the poll's transaction. */
  const LATE_SIGN_IN: seq<(Event, nat)> :=
    [(AddUser("u"), 0), (StartFlow("f"), 0), (ApproveFlow("f", "u"), 0), (BeginPoll("f"), 0), (ChangePassword("u", None), 0), (Finish(0, "t"), 0)]

  function WithApproval(ttl: Lifetimes): Service {
    Service(Accounts(map["u" := User(0, false, false)], map[], map[], map["f" := Flow(Approved("u"), ttl.flow)], [], {}), [])
  }

  lemma UpToApproval(ttl: Lifetimes)
    requires ttl.flow > 0
    ensures After(NEW, LATE_SIGN_IN[..3], ttl) == WithApproval(ttl)
  {
    FirstN(0, ttl);
    FirstN(1, ttl);
    FirstN(2, ttl);
    assert |LATE_SIGN_IN[..0]| == 0;
  }

  lemma FromApproval(v: Service, ttl: Lifetimes, at: nat)
    requires v == WithApproval(ttl) && ttl.flow > 0 && ttl.refresh > 0
    ensures var s := Turn(Turn(Turn(v, BeginPoll("f"), 0, ttl), ChangePassword("u", None), 0, ttl), Finish(0, "t"), 0, ttl).accounts;
      && AcceptsRefresh(s, "t", 0)
      && |s.issued| == 1 && s.issued[0].refresh == "t" && !AcceptsAccess(s, s.issued[0].access, at)
  {
    assert Turn(v, BeginPoll("f"), 0, ttl).requests == [Request(FromFlow("f"), "u", 0)];
  }

  /** A run from nothing: the poll ends after the password change, its access token is outdated and its refresh token live. */
  lemma LateSignIn(ttl: Lifetimes, at: nat)
    requires ttl.flow > 0 && ttl.refresh > 0
    ensures var s := After(NEW, LATE_SIGN_IN, ttl).accounts;
      && AcceptsRefresh(s, "t", 0)
      && |s.issued| == 1 && s.issued[0].refresh == "t" && !AcceptsAccess(s, s.issued[0].access, at)
  {
    UpToApproval(ttl);
    FirstN(3, ttl);
    FirstN(4, ttl);
    FirstN(5, ttl);
    FromApproval(WithApproval(ttl), ttl, at);
    assert LATE_SIGN_IN[..6] == LATE_SIGN_IN;
  }

  lemma FirstN(n: nat, ttl: Lifetimes)
    requires n < |LATE_SIGN_IN|
    ensures After(NEW, LATE_SIGN_IN[..n + 1], ttl) == Turn(After(NEW, LATE_SIGN_IN[..n], ttl), LATE_SIGN_IN[n].0, LATE_SIGN_IN[n].1, ttl)
  {
    assert LATE_SIGN_IN[..n + 1][..n] == LATE_SIGN_IN[..n];
  }

  // ---------------------------------------------------------------- the tables, changed in place

  /** The credential tables; what was handed out is remembered for the proofs only. */
  class CredentialStore {
    var users: map<Name, User>
    var refresh: map<Name, RefreshToken>
    var sessions: map<Name, Session>
    var flows: map<Name, Flow>
    ghost var issued: seq<Issue>
    ghost var sessionIds: set<Name>

    constructor ()
      ensures State() == NEW.accounts
    {
      users, refresh, sessions, flows, issued, sessionIds := map[], map[], map[], map[], [], {};
    }

    ghost function State(): Accounts
      reads this
    {
      Accounts(users, refresh, sessions, flows, issued, sessionIds)
    }

    method RevokeRefreshTokens(user: Name)
      modifies `refresh
      ensures refresh == RevokeRefresh(old(refresh), user)
    {
      refresh := map t | t in refresh :: if refresh[t].user == user then RefreshToken(user, true,
          refresh[t].expiresAt) else refresh[t];
    }

    method RevokeAllUserCredentials(user: Name, keep: Option<Name>)
      requires user in users
      modifies this
      ensures State() == RevokeAll(old(State()), user, keep)
    {
      RevokeRefreshTokens(user);
      sessions := map i | i in sessions && !(sessions[i].user == user && keep != Some(i)) :: sessions[i];
      var u := users[user];
      users := users[user := User(u.tokenVersion + 1, u.disabled, u.mustChangePassword)];
    }

    method IssueTokenPair(r: Request, name: Name, now: nat, ttl: Lifetimes) returns (access: AccessToken)
      requires name !in refresh
      modifies this
      ensures State() == IssuePair(old(State()), r, name, now, ttl)
      ensures issued == old(issued) + [Issue(r.origin, access, name)]
    {
      refresh := refresh[name := RefreshToken(r.user, false, now + ttl.refresh)];
      access := AccessToken(r.user, r.tokenVersion, now + ttl.access);
      issued := issued + [Issue(r.origin, access, name)];
    }

    /** The first half of a refresh: everything it reads before its transaction. */
    method BeginRotation(token: Name, now: nat) returns (r: Option<Request>)
      modifies this
      ensures (State(), r) == ReadForRefresh(old(State()), token, now)
    {
      if token !in refresh || refresh[token].user !in users { return None; }
      var row := refresh[token];
      if row.revoked {
        RevokeRefreshTokens(row.user);
        return None;
      }
      if row.expiresAt <= now || users[row.user].disabled { return None; }
      r := Some(Request(FromRefresh(token), row.user, users[row.user].tokenVersion));
    }

    /** The transaction of a refresh: claims the token with one conditional update, or loses the race. */
    method FinishRotation(r: Request, name: Name, now: nat, ttl: Lifetimes) returns (access: Option<AccessToken>)
      requires r.origin.FromRefresh? && name !in refresh
      modifies this
      ensures State() == ClaimRefresh(old(State()), r, name, now, ttl)
      ensures issued == old(issued) + if access.Some? then [Issue(r.origin, access.value, name)] else []
    {
      var t := r.origin.token;
      if t !in refresh || refresh[t].revoked { return None; }
      refresh := refresh[t := RefreshToken(refresh[t].user, true, refresh[t].expiresAt)];
      var a := IssueTokenPair(r, name, now, ttl);
      access := Some(a);
    }

    method LogoutToken(token: Name)
      modifies `refresh
      ensures State() == Logout(old(State()), token)
    {
      if token in refresh { refresh := refresh[token := RefreshToken(refresh[token].user, true, refresh[token].expiresAt)]; }
    }

    method ApproveDevice(flow: Name, user: Name, now: nat) returns (done: bool)
      modifies `flows
      ensures State() == Approve(old(State()), flow, user, now)
      ensures done ==> flow in flows && flows[flow].status == Approved(user)
    {
      if flow !in flows || flows[flow].expiresAt <= now || flows[flow].status != Waiting { return false; }
      flows := flows[flow := Flow(Approved(user), flows[flow].expiresAt)];
      done := true;
    }

    /** The first half of a poll; a user who must change the password first uses the flow up without tokens. */
    method BeginPoll(flow: Name, now: nat) returns (r: Option<Request>)
      modifies `flows
      ensures (State(), r) == ReadForPoll(old(State()), flow, now)
    {
      if flow !in flows || flows[flow].expiresAt <= now || flows[flow].status.Consumed? || flows[flow].status.Waiting? { return None; }
      var user := flows[flow].status.user;
      if user !in users || users[user].disabled { return None; }
      if users[user].mustChangePassword {
        flows := flows[flow := Flow(Consumed, flows[flow].expiresAt)];
        return None;
      }
      r := Some(Request(FromFlow(flow), user, users[user].tokenVersion));
    }

    /** The transaction of a poll: moves the flow from approved to consumed, or finds that another poll did. */
    method FinishPoll(r: Request, name: Name, now: nat, ttl: Lifetimes) returns (access: Option<AccessToken>)
      requires r.origin.FromFlow? && name !in refresh
      modifies this
      ensures State() == ClaimFlow(old(State()), r, name, now, ttl)
      ensures issued == old(issued) + if access.Some? then [Issue(r.origin, access.value, name)] else []
    {
      var f := r.origin.flow;
      if f !in flows || !flows[f].status.Approved? { return None; }
      flows := flows[f := Flow(Consumed, flows[f].expiresAt)];
      var a := IssueTokenPair(r, name, now, ttl);
      access := Some(a);
    }
  }
}
