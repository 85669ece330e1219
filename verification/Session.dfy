/**
  The session manager of atproto/session.py against a PDS that issues fresh tokens
  and spends a refresh token on every rotation. All public methods hold one lock,
  so any number of callers amounts to a sequence of whole calls. What the outside
  does during a call (replies, clocks, store failures) is the `Env` it is given.
*/
module Session {
  import opened Common
  import opened Errors
  import opened Powers

  const MIN_LOGIN_BACKOFF: real := 5.0
  const MAX_LOGIN_BACKOFF: real := 900.0
  // 2 ** 1024 is the first power of two that does not convert to a float.
  const FLOAT_EXPONENTS: nat := 1024

  /** Tokens are named by the order in which the PDS issued them. */
  datatype StoredSession = StoredSession(service: string, access: nat, refresh: nat)

  /** Expiries are whatever the tokens carry; None is no `exp`, or not a JWT. */
  datatype Config = Config(
    service: string, refreshSkew: real, refreshFloor: real,
    accessExpiry: nat -> Option<real>, refreshExpiry: nat -> Option<real>)

  datatype RefreshReply =
    | Refreshed(sameDid: bool)
    | RefreshFails(failure: Failure, rotated: bool)   // rotated: the answer was lost

  datatype LoginReply = LoggedIn(active: bool) | LoginFails(failure: Failure)

  datatype Env = Env(
    loadOk: bool, saveOk: bool, clearOk: bool,
    refresh: RefreshReply, login: LoginReply,
    wall: real, idle: real, refreshTakes: real, oversleep: real, loginTakes: real, jitter: real)

  predicate ValidEnv(e: Env) {
    e.idle >= 0.0 && e.refreshTakes >= 0.0 && e.oversleep >= 0.0 && e.loginTakes >= 0.0 && 0.0 <= e.jitter < 1.0
  }

  // What a call can raise: a request failure, a SessionError, the overflow of the
  // backoff, an OSError of the store.
  datatype Error = Request(failure: Failure) | BadSession | Overflow | StoreFailed

  type Reply = Result<StoredSession, Error>

  /** The manager, its store, the monotonic clock and the PDS. The last three rows
      are bookkeeping: `replayed` are the spent tokens presented to refreshSession,
      `lapsed` those a rotation spent without their successor reaching the store,
      `stored` everything the store has held, `renewals` counts the sessions
      obtained, `unsaved` are those the store refused, `sends` says when each
      createSession went out, `firstFailure` and `lastFailure` are the failed logins
      since the last success. */
  datatype World = World(
    session: Option<StoredSession>, loaded: bool, failures: nat, nextLogin: real,
    disk: Option<StoredSession>, mono: real, issued: nat, spent: set<nat>,
    replayed: set<nat>, lapsed: set<nat>, stored: set<Option<StoredSession>>,
    renewals: nat, unsaved: set<StoredSession>,
    sends: seq<real>, firstFailure: real, lastFailure: Option<(real, Error)>)

  // ----- specification ------------------------------------------------------

  predicate Expired(expiry: Option<real>, skew: real, now: real) {
    expiry.None? || expiry.value - skew <= now
  }

  function Max(a: real, b: real): real {
    if a < b then b else a
  }

  function Min(a: real, b: real): real {
    if a < b then a else b
  }

  /** min(5 * 2^(n-1), 900) */
  function Backoff(n: nat): real
    requires n > 0
  {
    Min(MIN_LOGIN_BACKOFF * Pow2(n - 1), MAX_LOGIN_BACKOFF)
  }

  function LoadOnce(c: Config, w: World, e: Env): World {
    if w.loaded then w
    else if e.loadOk && w.disk.Some? && w.disk.value.service == c.service
    then w.(loaded := true, session := w.disk)
    else w.(loaded := true)
  }

  function Persist(w: World, s: StoredSession, e: Env): World {
    var u := w.(session := Some(s), renewals := w.renewals + 1);
    if e.saveOk then u.(disk := Some(s), stored := w.stored + {Some(s)}) else u.(unsaved := w.unsaved + {s})
  }

  /** refreshSession as the PDS sees it: the presented token is spent. */
  function Rotate(w: World, token: nat): World {
    w.(spent := w.spent + {token}, issued := w.issued + 1)
  }

  /** The token is spent and nothing in the store replaces it. */
  function Lapse(w: World, token: nat): World {
    w.(lapsed := w.lapsed + {token})
  }

  function Present(w: World, token: nat): World {
    if token in w.spent then w.(replayed := w.replayed + {token}) else w
  }

  function Refresh(c: Config, w: World, e: Env, current: StoredSession): (World, Reply) {
    var u := Present(w, current.refresh).(mono := w.mono + e.refreshTakes);
    match e.refresh
    case RefreshFails(f, rotated) =>
      (if rotated then Lapse(Rotate(u, current.refresh), current.refresh) else u, Err(Request(f)))
    case Refreshed(sameDid) =>
      var v := Rotate(u, current.refresh);
      if sameDid then
        var s := StoredSession(current.service, u.issued, u.issued);
        (Persist(if e.saveOk then v else Lapse(v, current.refresh), s, e), Ok(s))
      else (Lapse(v, current.refresh), Err(BadSession))
  }

  function Jittered(n: nat, jitter: real): real
    requires n > 0
  {
    Backoff(n) * (0.5 + jitter / 2.0)
  }

  function Wait(n: nat, error: Error, jitter: real): real
    requires n > 0
  {
    var wait := Jittered(n, jitter);
    if error.Request? && error.failure.Xrpc? then
      var x := error.failure.error;
      var w1 := if x.retryAfter.Some? then Max(wait, x.retryAfter.value) else wait;
      if x.status == 401 || x.kind == "AuthenticationRequired" then Max(w1, MAX_LOGIN_BACKOFF) else w1
    else wait
  }

  /** The counter moves before the power is taken, so past 1024 failures the
      overflow leaves `nextLogin` as it was and replaces the error. */
  function NoteLoginFailure(w: World, error: Error, jitter: real): (World, Error) {
    var n := w.failures + 1;
    var u := w.(failures := n, lastFailure := Some((w.mono, error)),
                firstFailure := if n == 1 then w.mono else w.firstFailure);
    if n > FLOAT_EXPONENTS then (u, Overflow)
    else (u.(nextLogin := w.mono + Wait(n, error, jitter)), error)
  }

  /** When createSession goes out: after sleeping out the backoff, if any is left. */
  function SentAt(w: World, e: Env): real {
    if w.nextLogin > w.mono then w.nextLogin + e.oversleep else w.mono
  }

  function Send(w: World, e: Env): World {
    w.(mono := SentAt(w, e) + e.loginTakes, sends := w.sends + [SentAt(w, e)])
  }

  /** What the answer to createSession leads to. */
  function Answer(c: Config, w: World, e: Env): (World, Reply) {
    match e.login
    case LoginFails(f) =>
      var (v, error) := NoteLoginFailure(w, Request(f), e.jitter);
      (v, Err(error))
    case LoggedIn(false) =>
      var (v, error) := NoteLoginFailure(w.(issued := w.issued + 1), BadSession, e.jitter);
      (v, Err(error))
    case LoggedIn(true) =>
      var s := StoredSession(c.service, w.issued, w.issued);
      (Persist(w.(issued := w.issued + 1), s, e).(failures := 0, nextLogin := 0.0, lastFailure := None), Ok(s))
  }

  function Login(c: Config, w: World, e: Env): (World, Reply) {
    Answer(c, Send(w, e), e)
  }

  function Renew(c: Config, w: World, e: Env): (World, Reply) {
    if w.session.None? || Expired(c.refreshExpiry(w.session.value.refresh), c.refreshFloor, e.wall) then Login(c, w, e)
    else
      var (u, r) := Refresh(c, w, e, w.session.value);
      if r.Ok? || (r.error.Request? && Retryable(r.error.failure)) then (u, r) else Login(c, u, e)
  }

  function Begin(c: Config, w: World, e: Env): World {
    LoadOnce(c, w.(mono := w.mono + Max(e.idle, 0.0)), e)
  }

  function GetSession(c: Config, w: World, e: Env): (World, Reply) {
    var u := Begin(c, w, e);
    if u.session.Some? && !Expired(c.accessExpiry(u.session.value.access), c.refreshSkew, e.wall)
    then (u, Ok(u.session.value))
    else Renew(c, u, e)
  }

  function Invalidate(c: Config, w: World, e: Env, stale: Option<nat>): (World, Reply) {
    var u := Begin(c, w, e);
    if stale.Some? && u.session.Some? && u.session.value.access != stale.value
    then (u, Ok(u.session.value))
    else Renew(c, u, e)
  }

  /** deleteSession retires the refresh token on the server, too. */
  function Logout(c: Config, w: World, e: Env): (World, Option<Error>) {
    var u := Begin(c, w, e);
    var v := u.(session := None);
    if !e.clearOk then (v, Some(StoreFailed))
    else
      var cleared := v.(disk := None, stored := v.stored + {None});
      (if u.session.None? then cleared else cleared.(spent := v.spent + {u.session.value.refresh}), None)
  }

  /** A new process: nothing in memory, the store as it was left. */
  function Restart(w: World): World {
    w.(session := None, loaded := false, failures := 0, nextLogin := 0.0, lastFailure := None)
  }

  // ----- the class ----------------------------------------------------------

  /** The store, the clock and the PDS. */
  class Outside {
    var disk: Option<StoredSession>
    var mono: real
    var issued: nat
    ghost var spent: set<nat>
    ghost var replayed: set<nat>
    ghost var lapsed: set<nat>
    ghost var stored: set<Option<StoredSession>>
    ghost var renewals: nat
    ghost var unsaved: set<StoredSession>
    ghost var sends: seq<real>
    ghost var firstFailure: real
    ghost var lastFailure: Option<(real, Error)>
  }

  class SessionManager {
    const c: Config
    const outside: Outside
    var session: Option<StoredSession>
    var loaded: bool
    var loginFailures: nat
    var nextLoginAllowedAt: real

    constructor (c: Config, outside: Outside)
      ensures this.c == c && this.outside == outside
      ensures session == None && !loaded && loginFailures == 0 && nextLoginAllowedAt == 0.0
    {
      this.c, this.outside := c, outside;
      session, loaded, loginFailures, nextLoginAllowedAt := None, false, 0, 0.0;
    }

    ghost function View(): World
      reads this, outside
    {
      World(session, loaded, loginFailures, nextLoginAllowedAt,
            outside.disk, outside.mono, outside.issued, outside.spent,
            outside.replayed, outside.lapsed, outside.stored, outside.renewals, outside.unsaved,
            outside.sends, outside.firstFailure, outside.lastFailure)
    }

    method Session(e: Env) returns (r: Reply)
      modifies this, outside
      ensures (View(), r) == GetSession(c, old(View()), e)
    {
      Enter(e);
      if session.Some? && !Expired(c.accessExpiry(session.value.access), c.refreshSkew, e.wall) {
        return Ok(session.value);
      }
      r := RenewSession(e);
    }

    method InvalidateToken(stale: Option<nat>, e: Env) returns (r: Reply)
      modifies this, outside
      ensures (View(), r) == Invalidate(c, old(View()), e, stale)
    {
      Enter(e);
      if stale.Some? && session.Some? && session.value.access != stale.value {
        return Ok(session.value);
      }
      r := RenewSession(e);
    }

    method LogOut(e: Env) returns (r: Option<Error>)
      modifies this, outside
      ensures (View(), r) == Logout(c, old(View()), e)
    {
      Enter(e);
      var current := session;
      session := None;
      if !e.clearOk {
        return Some(StoreFailed);
      }
      outside.disk := None;
      outside.stored := outside.stored + {None};
      if current.Some? {
        outside.spent := outside.spent + {current.value.refresh};
      }
      return None;
    }

    /** A call begins: time has passed, and the store is loaded if it was not. */
    method Enter(e: Env)
      modifies this, outside
      ensures View() == Begin(c, old(View()), e)
    {
      outside.mono := outside.mono + Max(e.idle, 0.0);
      LoadStored(e);
    }

    method LoadStored(e: Env)
      modifies this
      ensures View() == LoadOnce(c, old(View()), e)
    {
      if loaded {
        return;
      }
      loaded := true;
      if !e.loadOk || outside.disk.None? || outside.disk.value.service != c.service {
        return;
      }
      session := outside.disk;
    }

    method RenewSession(e: Env) returns (r: Reply)
      modifies this, outside
      ensures (View(), r) == Renew(c, old(View()), e)
    {
      if session.Some? && !Expired(c.refreshExpiry(session.value.refresh), c.refreshFloor, e.wall) {
        r := RefreshSession(session.value, e);
        if r.Ok? || (r.error.Request? && Retryable(r.error.failure)) {
          return;
        }
      }
      r := LogIn(e);
    }

    method RefreshSession(current: StoredSession, e: Env) returns (r: Reply)
      modifies this, outside
      ensures (View(), r) == Refresh(c, old(View()), e, current)
    {
      if current.refresh in outside.spent {
        outside.replayed := outside.replayed + {current.refresh};
      }
      outside.mono := outside.mono + e.refreshTakes;
      if e.refresh.RefreshFails? {
        if e.refresh.rotated {
          outside.spent, outside.issued := outside.spent + {current.refresh}, outside.issued + 1;
          outside.lapsed := outside.lapsed + {current.refresh};
        }
        return Err(Request(e.refresh.failure));
      }
      var s := StoredSession(current.service, outside.issued, outside.issued);
      outside.spent, outside.issued := outside.spent + {current.refresh}, outside.issued + 1;
      if !e.refresh.sameDid {
        outside.lapsed := outside.lapsed + {current.refresh};
        return Err(BadSession);
      }
      if !e.saveOk {
        outside.lapsed := outside.lapsed + {current.refresh};
      }
      PersistSession(s, e);
      return Ok(s);
    }

    method LogIn(e: Env) returns (r: Reply)
      modifies this, outside
      ensures (View(), r) == Login(c, old(View()), e)
    {
      SendLogin(e);
      if e.login.LoginFails? {
        var error := NoteFailure(Request(e.login.failure), e.jitter);
        return Err(error);
      }
      var s := StoredSession(c.service, outside.issued, outside.issued);
      outside.issued := outside.issued + 1;
      if !e.login.active {
        var error := NoteFailure(BadSession, e.jitter);
        return Err(error);
      }
      PersistSession(s, e);
      loginFailures := 0;
      nextLoginAllowedAt := 0.0;
      outside.lastFailure := None;
      return Ok(s);
    }

    /** Sleeps out what is left of the backoff and posts createSession. */
    method SendLogin(e: Env)
      modifies outside
      ensures View() == Send(old(View()), e)
    {
      var wait := nextLoginAllowedAt - outside.mono;
      if wait > 0.0 {
        outside.mono := outside.mono + wait + e.oversleep;
      }
      outside.sends := outside.sends + [outside.mono];
      outside.mono := outside.mono + e.loginTakes;
    }

    method NoteFailure(error: Error, jitter: real) returns (raised: Error)
      modifies this, outside
      ensures (View(), raised) == NoteLoginFailure(old(View()), error, jitter)
    {
      loginFailures := loginFailures + 1;
      outside.lastFailure := Some((outside.mono, error));
      if loginFailures == 1 {
        outside.firstFailure := outside.mono;
      }
      if loginFailures > FLOAT_EXPONENTS {
        return Overflow;
      }
      var wait := Jittered(loginFailures, jitter);
      if error.Request? && error.failure.Xrpc? {
        var x := error.failure.error;
        if x.retryAfter.Some? {
          wait := Max(wait, x.retryAfter.value);
        }
        if x.status == 401 || x.kind == "AuthenticationRequired" {
          wait := Max(wait, MAX_LOGIN_BACKOFF);
        }
      }
      nextLoginAllowedAt := outside.mono + wait;
      return error;
    }

    method PersistSession(s: StoredSession, e: Env)
      modifies this, outside
      ensures View() == Persist(old(View()), s, e)
    {
      session := Some(s);
      outside.renewals := outside.renewals + 1;
      if e.saveOk {
        outside.disk := Some(s);
        outside.stored := outside.stored + {Some(s)};
      } else {
        outside.unsaved := outside.unsaved + {s};
      }
    }
  }
}
