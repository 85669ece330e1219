/**
  What one session(), invalidate() or logout() comes to, case by case: when a token is
  renewed, when by a refresh and when by a login, and what the caller gets. The cases
  are spelled out on what the call finds and what the server answers.
*/
module Renewals {
  import opened Common
  import opened Errors
  import opened Powers
  import opened Session
  import opened SessionRuns

  // ----- what the call finds ------------------------------------------------

  /** The session a call starts from: the one in memory, or the stored one if it is the
      first call, can be read and is for this service. */
  function Found(c: Config, w: World, e: Env): Option<StoredSession> {
    if w.loaded then w.session
    else if e.loadOk && w.disk.Some? && w.disk.value.service == c.service then w.disk else None
  }

  /** At or past `margin` before its expiry, or without one. */
  predicate NearExpiry(expiry: Option<real>, margin: real, now: real) {
    expiry.None? || expiry.value <= now + margin
  }

  /** session() renews a token that is about to expire, invalidate() the rejected one
      if it is still the current one, and both if there is none. */
  predicate MustRenew(c: Config, w: World, op: Op)
    requires Renewing(op)
  {
    var found := Found(c, w, op.e);
    || found.None?
    || match op
       case Use(e) => NearExpiry(c.accessExpiry(found.value.access), c.refreshSkew, e.wall)
       case Reject(stale, _) => stale == None || stale == Some(found.value.access)
       case _ => false
  }

  /** A refresh token worth presenting. */
  predicate Refreshes(c: Config, w: World, op: Op)
    requires Renewing(op)
  {
    var found := Found(c, w, op.e);
    found.Some? && !NearExpiry(c.refreshExpiry(found.value.refresh), c.refreshFloor, op.e.wall)
  }

  /** Failures that say nothing about the refresh token: no response, a server error,
      a timeout or a rate limit. */
  predicate Transient(f: Failure) {
    match f
    case Network => true
    case Xrpc(x) => x.status >= 500 || x.status == 408 || x.status == 429 || x.kind == "RateLimitExceeded"
  }

  /** A refresh that leaves no way but the app password: an answer for another
      account, or a refusal. */
  predicate RefreshIsFinal(e: Env) {
    match e.refresh
    case Refreshed(sameDid) => !sameDid
    case RefreshFails(f, _) => !Transient(f)
  }

  /** The app password is used. */
  predicate LogsIn(c: Config, w: World, op: Op)
    requires Renewing(op)
  {
    MustRenew(c, w, op) && (Refreshes(c, w, op) ==> RefreshIsFinal(op.e))
  }

  // ----- from the call to its renewal ---------------------------------------

  /** The world a call starts from. */
  function Started(c: Config, w: World, e: Env): World {
    w.(mono := w.mono + Max(e.idle, 0.0), loaded := true, session := Found(c, w, e))
  }

  lemma BeginIsStarted(c: Config, w: World, e: Env)
    requires !w.loaded ==> w.session.None?
    ensures Begin(c, w, e) == Started(c, w, e)
  {
  }

  lemma ExpiredIsNear(expiry: Option<real>, margin: real, now: real)
    ensures Expired(expiry, margin, now) <==> NearExpiry(expiry, margin, now)
  {
  }

  /** A call either renews or returns what it found. */
  lemma StepRenews(c: Config, w: World, op: Op)
    requires Renewing(op) && (!w.loaded ==> w.session.None?)
    ensures var v := Started(c, w, op.e);
      Step(c, w, op) ==
        if MustRenew(c, w, op) then (Renew(c, v, op.e).0, Some(Renew(c, v, op.e).1)) else (v, Some(Ok(v.session.value)))
  {
    BeginIsStarted(c, w, op.e);
    var found := Found(c, w, op.e);
    if found.Some? {
      ExpiredIsNear(c.accessExpiry(found.value.access), c.refreshSkew, op.e.wall);
    }
  }

  lemma TransientIsRetryable(f: Failure)
    ensures Transient(f) <==> Retryable(f)
  {
  }

  /** A renewal is a refresh, a login, or a login after a refresh. */
  lemma RenewIs(c: Config, w: World, op: Op)
    requires Renewing(op) && MustRenew(c, w, op)
    ensures var v, e := Started(c, w, op.e), op.e;
      Renew(c, v, e) ==
        if !Refreshes(c, w, op) then Login(c, v, e)
        else if RefreshIsFinal(e) then Login(c, Refresh(c, v, e, v.session.value).0, e)
        else Refresh(c, v, e, v.session.value)
  {
    var found, e := Found(c, w, op.e), op.e;
    if found.Some? {
      ExpiredIsNear(c.refreshExpiry(found.value.refresh), c.refreshFloor, e.wall);
    }
    if e.refresh.RefreshFails? {
      TransientIsRetryable(e.refresh.failure);
    }
  }

  // ----- the cases ----------------------------------------------------------

  /** Nothing to renew: the caller gets what there is, and nothing else happens. */
  lemma CurrentTokenServes(c: Config, w: World, op: Op)
    requires Invariant(w) && Renewing(op) && !MustRenew(c, w, op)
    ensures Found(c, w, op.e).Some?
    ensures Step(c, w, op) == (Started(c, w, op.e), Some(Ok(Found(c, w, op.e).value)))
  {
    StepRenews(c, w, op);
  }

  /** A new session `s` is current, and stored if the store takes it. */
  predicate Installed(w: World, u: World, e: Env, s: StoredSession) {
    && u.session == Some(s) && s.access >= w.issued && s.refresh >= w.issued
    && u.disk == (if e.saveOk then Some(s) else w.disk)
    && u.renewals == w.renewals + 1
  }

  /** The session, the store and the login backoff are as they were found. */
  predicate Kept(c: Config, w: World, u: World, e: Env) {
    && u.session == Found(c, w, e) && u.disk == w.disk && u.renewals == w.renewals && u.loaded
  }

  predicate SameBackoff(w: World, u: World) {
    u.failures == w.failures && u.nextLogin == w.nextLogin && u.sends == w.sends && u.lastFailure == w.lastFailure
  }

  /** A good refresh token gets a new session without the app password. */
  lemma RefreshServes(c: Config, w: World, op: Op)
    requires Invariant(w) && Renewing(op) && MustRenew(c, w, op) && Refreshes(c, w, op)
    requires op.e.refresh == Refreshed(true)
    ensures var (u, r) := Step(c, w, op); var found := Found(c, w, op.e).value;
      && r.value.Ok? && Installed(w, u, op.e, r.value.value) && r.value.value.service == found.service
      && u.spent == w.spent + {found.refresh} && u.issued == w.issued + 1 && SameBackoff(w, u)
  {
    StepRenews(c, w, op);
    RenewIs(c, w, op);
  }

  /** A transient failure of the refresh is the caller's, and changes nothing but what
      the server may have done. */
  lemma TransientFailureSurfaces(c: Config, w: World, op: Op)
    requires Invariant(w) && Renewing(op) && MustRenew(c, w, op) && Refreshes(c, w, op)
    requires op.e.refresh.RefreshFails? && Transient(op.e.refresh.failure)
    ensures var (u, r) := Step(c, w, op);
      && r == Some(Err(Request(op.e.refresh.failure))) && Kept(c, w, u, op.e) && SameBackoff(w, u)
      && u.spent == w.spent + (if op.e.refresh.rotated then {Found(c, w, op.e).value.refresh} else {})
  {
    StepRenews(c, w, op);
    RenewIs(c, w, op);
  }

  /** The world createSession is sent from. */
  function BeforeLogin(c: Config, w: World, op: Op): World
    requires Renewing(op)
  {
    var v := Started(c, w, op.e);
    if Refreshes(c, w, op) then Refresh(c, v, op.e, v.session.value).0 else v
  }

  lemma LoginIs(c: Config, w: World, op: Op)
    requires Invariant(w) && Renewing(op) && LogsIn(c, w, op)
    ensures Step(c, w, op).0 == Login(c, BeforeLogin(c, w, op), op.e).0
    ensures Step(c, w, op).1 == Some(Login(c, BeforeLogin(c, w, op), op.e).1)
  {
    StepRenews(c, w, op);
    RenewIs(c, w, op);
  }

  lemma BeforeLoginKeeps(c: Config, w: World, op: Op)
    requires Renewing(op) && LogsIn(c, w, op)
    ensures var v, e := BeforeLogin(c, w, op), op.e;
      && Kept(c, w, v, e) && SameBackoff(w, v) && v.issued >= w.issued && v.firstFailure == w.firstFailure
      && v.mono == w.mono + Max(e.idle, 0.0) + if Refreshes(c, w, op) then e.refreshTakes else 0.0
  {
  }

  /** createSession goes out exactly when the app password is needed: there is no
      session, its refresh token is near its end, or the refresh came to a final no. */
  lemma LoginGoesOutExactlyWhen(c: Config, w: World, op: Op)
    requires Invariant(w) && Renewing(op)
    ensures var u := Step(c, w, op).0;
      && (|u.sends| == |w.sends| + 1 <==> LogsIn(c, w, op))
      && (!LogsIn(c, w, op) ==> u.sends == w.sends)
  {
    if LogsIn(c, w, op) {
      LoginIs(c, w, op);
      BeforeLoginKeeps(c, w, op);
      LoginSends(c, BeforeLogin(c, w, op), op.e);
    } else if !MustRenew(c, w, op) {
      CurrentTokenServes(c, w, op);
    } else if op.e.refresh.RefreshFails? {
      TransientFailureSurfaces(c, w, op);
    } else {
      RefreshServes(c, w, op);
    }
  }

  lemma LoginSends(c: Config, w: World, e: Env)
    ensures Login(c, w, e).0.sends == w.sends + [if w.nextLogin > w.mono then w.nextLogin + e.oversleep else w.mono]
  {
  }

  /** It goes out at once if no wait is left, and otherwise when the wait is over. */
  lemma LoginIsSentAt(c: Config, w: World, op: Op)
    requires Invariant(w) && Renewing(op) && LogsIn(c, w, op)
    ensures var e := op.e;
      var ready := w.mono + Max(e.idle, 0.0) + if Refreshes(c, w, op) then e.refreshTakes else 0.0;
      Step(c, w, op).0.sends == w.sends + [if w.nextLogin > ready then w.nextLogin + e.oversleep else ready]
  {
    LoginIs(c, w, op);
    BeforeLoginKeeps(c, w, op);
    LoginSends(c, BeforeLogin(c, w, op), op.e);
  }

  /** An accepted login gets a new session and ends the backoff. */
  lemma LoginServes(c: Config, w: World, op: Op)
    requires Invariant(w) && Renewing(op) && LogsIn(c, w, op) && op.e.login == LoggedIn(true)
    ensures var (u, r) := Step(c, w, op);
      && r.value.Ok? && Installed(w, u, op.e, r.value.value) && r.value.value.service == c.service
      && u.failures == 0 && u.nextLogin == 0.0 && u.lastFailure == None
  {
    LoginIs(c, w, op);
    BeforeLoginKeeps(c, w, op);
    AnsweredTrue(c, Send(BeforeLogin(c, w, op), op.e), op.e);
  }

  lemma AnsweredTrue(c: Config, w: World, e: Env)
    requires e.login == LoggedIn(true)
    ensures var (u, r) := Answer(c, w, e);
      && r.Ok? && Installed(w, u, e, r.value) && r.value.service == c.service
      && u.failures == 0 && u.nextLogin == 0.0 && u.lastFailure == None
  {
  }

  /** What a failed login raises: its own error, until the backoff overflows. */
  function LoginError(e: Env): Error {
    if e.login.LoginFails? then Request(e.login.failure) else BadSession
  }

  /** 5, 10, 20, ... 640 seconds, then 900. */
  function CappedBackoff(n: nat): real
    requires n > 0
  {
    if n >= 9 then 900.0 else 5.0 * Pow2(n - 1)
  }

  lemma BackoffIsCapped(n: nat)
    requires n > 0
    ensures Backoff(n) == CappedBackoff(n)
  {
    if n >= 9 {
      PowerAtLeast(n - 1);
    } else {
      SmallBackoffs(n);
    }
  }

  lemma SmallBackoffs(n: nat)
    requires 0 < n < 9
    ensures 5.0 * Pow2(n - 1) <= 900.0
  {
    assert Pow2(4) == 16.0;
    assert n == 1 || n == 2 || n == 3 || n == 4 || n == 5 || n == 6 || n == 7 || n == 8;
  }

  /** The jitter takes off up to half of it. */
  lemma JitterSpreads(n: nat)
    requires n > 0
    ensures Jittered(n, 0.0) == CappedBackoff(n) / 2.0 && Jittered(n, 0.5) == CappedBackoff(n) * 0.75
  {
    BackoffIsCapped(n);
  }

  /** A failed login is the caller's error and one more failure, and leaves session and
      store alone. */
  lemma LoginFailureSurfaces(c: Config, w: World, op: Op)
    requires Invariant(w) && Renewing(op) && LogsIn(c, w, op) && op.e.login != LoggedIn(true)
    ensures var (u, r) := Step(c, w, op);
      && r == Some(Err(if w.failures < FLOAT_EXPONENTS then LoginError(op.e) else Overflow))
      && Kept(c, w, u, op.e) && u.failures == w.failures + 1 && u.lastFailure == Some((u.mono, LoginError(op.e)))
  {
    LoginIs(c, w, op);
    BeforeLoginKeeps(c, w, op);
    AnsweredFalse(c, Send(BeforeLogin(c, w, op), op.e), op.e);
  }

  lemma AnsweredFalse(c: Config, w: World, e: Env)
    requires e.login != LoggedIn(true)
    ensures var (u, r) := Answer(c, w, e);
      && r == Err(if w.failures < FLOAT_EXPONENTS then LoginError(e) else Overflow)
      && u.session == w.session && u.disk == w.disk && u.renewals == w.renewals && u.loaded == w.loaded
      && u.mono == w.mono && u.failures == w.failures + 1 && u.lastFailure == Some((u.mono, LoginError(e)))
  {
  }

  /** The wait a failure imposes: at least half the capped backoff and what the error
      asked for, and at most the one or the other. */
  lemma BackoffIsBounded(c: Config, w: World, op: Op)
    requires Invariant(w) && Renewing(op) && LogsIn(c, w, op) && op.e.login != LoggedIn(true)
    requires w.failures < FLOAT_EXPONENTS && 0.0 <= op.e.jitter < 1.0
    ensures var u := Step(c, w, op).0; var wait, n := u.nextLogin - u.mono, w.failures + 1;
      && CappedBackoff(n) / 2.0 <= wait && Asked(LoginError(op.e)) <= wait
      && wait <= Max(CappedBackoff(n), Asked(LoginError(op.e)))
  {
    LoginIs(c, w, op);
    BeforeLoginKeeps(c, w, op);
    var v := Send(BeforeLogin(c, w, op), op.e);
    AnswerWaits(c, v, op.e);
    WaitIsLongEnough(w.failures + 1, LoginError(op.e), op.e.jitter);
    WaitIsShortEnough(w.failures + 1, LoginError(op.e), op.e.jitter);
    BackoffIsCapped(w.failures + 1);
  }

  lemma AnswerWaits(c: Config, w: World, e: Env)
    requires e.login != LoggedIn(true) && w.failures < FLOAT_EXPONENTS
    ensures var u := Answer(c, w, e).0;
      u.nextLogin == w.mono + Wait(w.failures + 1, LoginError(e), e.jitter) && u.mono == w.mono
  {
  }

  lemma WaitIsShortEnough(n: nat, error: Error, jitter: real)
    requires n > 0 && 0.0 <= jitter < 1.0
    ensures Wait(n, error, jitter) <= Max(Backoff(n), Asked(error))
  {
    BackoffIsCapped(n);
    JitterShortens(Backoff(n), 0.5 + jitter / 2.0);
    assert Jittered(n, jitter) <= Backoff(n);
  }

  lemma JitterShortens(b: real, factor: real)
    requires b >= 0.0 && 0.0 <= factor <= 1.0
    ensures b * factor <= b
  {
  }

  /** logout() forgets the session whatever happens; only if the store forgot it, too,
      is the refresh token revoked on the server. */
  lemma LogoutForgets(c: Config, w: World, e: Env)
    requires Invariant(w)
    ensures var (u, error) := Logout(c, w, e); var found := Found(c, w, e);
      && u.session == None && u.loaded && SameBackoff(w, u) && u.issued == w.issued
      && (e.clearOk ==>
            error == None && u.disk == None && u.spent == w.spent + (if found.Some? then {found.value.refresh} else {}))
      && (!e.clearOk ==> error == Some(StoreFailed) && u.disk == w.disk && u.spent == w.spent)
  {
    BeginIsStarted(c, w, e);
  }
}
