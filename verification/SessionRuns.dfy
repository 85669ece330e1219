/**
  What the session manager guarantees over every sequence of calls, crashes and
  power losses: a spent refresh token is replayed only after its own rotation went
  wrong, every session handed out is on disk first, renewals are single-flight, and
  failed logins back off.
*/
module SessionRuns {
  import opened Common
  import opened Errors
  import opened Powers
  import opened Session

  datatype Op =
    | Use(e: Env)                               // session()
    | Reject(stale: Option<nat>, e: Env)        // invalidate(stale)
    | SignOut(e: Env)                           // logout()
    | Crash(lost: nat)                          // between calls, or with `lost` logins unanswered
    | CrashInRotation(e: Env)                   // after the PDS rotated, before the save
    | PowerLoss(back: Option<StoredSession>, lost: nat)  // the store falls back to `back`, if it ever held that

  function Step(c: Config, w: World, op: Op): (World, Option<Reply>) {
    match op
    case Use(e) => var (u, r) := GetSession(c, w, e); (u, Some(r))
    case Reject(stale, e) => var (u, r) := Invalidate(c, w, e, stale); (u, Some(r))
    case SignOut(e) => (Logout(c, w, e).0, None)
    case Crash(lost) => (Restart(w.(issued := w.issued + lost)), None)
    case CrashInRotation(e) =>
      var u := Begin(c, w, e);
      if u.session.None? then (Restart(u), None)
      else
        var t := u.session.value.refresh;
        (Restart(Lapse(Rotate(Present(u, t), t), t)), None)
    case PowerLoss(back, lost) => (Restart(FallBack(w, back).(issued := w.issued + lost)), None)
  }

  /** The store as a power loss may leave it: with any session it has held. */
  function FallBack(w: World, back: Option<StoredSession>): World {
    if back !in w.stored then w
    else if back.Some? && back.value.refresh in w.spent then Lapse(w.(disk := back), back.value.refresh)
    else w.(disk := back)
  }

  function Run(c: Config, w: World, ops: seq<Op>): World
    decreases |ops|
  {
    if ops == [] then w else Run(c, Step(c, w, ops[0]).0, ops[1..])
  }

  /** A fresh process, with at most an unspent session of an earlier one on disk. */
  predicate Fresh(w: World) {
    && w.session.None? && !w.loaded && w.failures == 0 && w.nextLogin == 0.0 && w.lastFailure.None?
    && w.replayed == {} && w.lapsed == {} && w.unsaved == {} && w.disk in w.stored
    && (w.disk.Some? ==> w.disk.value.refresh !in w.spent)
    && (forall s :: s in w.stored ==> Known(w, s))
    && (forall t :: t in w.spent ==> t < w.issued)
  }

  // ----- rotation and durability --------------------------------------------

  predicate Known(w: World, s: Option<StoredSession>) {
    s.Some? ==> s.value.access < w.issued && s.value.refresh < w.issued
  }

  /** A held token is only spent if its rotation went wrong. */
  predicate SpentOnlyIfLapsed(w: World, s: Option<StoredSession>) {
    s.Some? && s.value.refresh in w.spent ==> s.value.refresh in w.lapsed
  }

  predicate Durable(w: World, s: StoredSession) {
    w.disk == Some(s) || s in w.unsaved
  }

  predicate Invariant(w: World) {
    && Known(w, w.session) && Known(w, w.disk)
    && w.disk in w.stored && (forall s :: s in w.stored ==> Known(w, s))
    && (forall t :: t in w.spent ==> t < w.issued)
    && (!w.loaded ==> w.session.None?)
    && (w.session.Some? ==> Durable(w, w.session.value))
    && SpentOnlyIfLapsed(w, w.session) && SpentOnlyIfLapsed(w, w.disk)
  }

  lemma BeginKeeps(c: Config, w: World, e: Env)
    requires Invariant(w)
    ensures Invariant(Begin(c, w, e)) && Begin(c, w, e).loaded
  {
  }

  /** A new session, its token not spent, in place of one that may be. */
  lemma PersistKeeps(w: World, s: StoredSession, e: Env)
    requires Invariant(w.(session := None)) && w.loaded && Known(w, Some(s)) && s.refresh !in w.spent
    ensures Invariant(Persist(w, s, e)) && Durable(Persist(w, s, e), s)
  {
  }

  lemma RefreshKeeps(c: Config, w: World, e: Env)
    requires Invariant(w) && w.loaded && w.session.Some?
    ensures var (u, r) := Refresh(c, w, e, w.session.value);
      Invariant(u) && u.loaded && (r.Ok? ==> Durable(u, r.value))
  {
    if e.refresh == Refreshed(true) {
      RefreshedKeeps(c, w, e);
    }
  }

  lemma RefreshedKeeps(c: Config, w: World, e: Env)
    requires Invariant(w) && w.loaded && w.session.Some? && e.refresh == Refreshed(true)
    ensures var (u, r) := Refresh(c, w, e, w.session.value);
      Invariant(u) && u.loaded && r.Ok? && Durable(u, r.value)
  {
  }

  lemma NoteKeeps(w: World, error: Error, jitter: real)
    requires Invariant(w) && w.loaded
    ensures Invariant(NoteLoginFailure(w, error, jitter).0) && NoteLoginFailure(w, error, jitter).0.loaded
  {
  }

  lemma AnswerKeeps(c: Config, w: World, e: Env)
    requires Invariant(w) && w.loaded
    ensures var (u, r) := Answer(c, w, e);
      Invariant(u) && u.loaded && (r.Ok? ==> Durable(u, r.value))
  {
    var next := w.(issued := w.issued + 1);
    match e.login
    case LoginFails(f) => NoteKeeps(w, Request(f), e.jitter);
    case LoggedIn(false) => NoteKeeps(next, BadSession, e.jitter);
    case LoggedIn(true) => PersistKeeps(next, StoredSession(c.service, w.issued, w.issued), e);
  }

  lemma LoginKeeps(c: Config, w: World, e: Env)
    requires Invariant(w) && w.loaded
    ensures var (u, r) := Login(c, w, e);
      Invariant(u) && u.loaded && (r.Ok? ==> Durable(u, r.value))
  {
    AnswerKeeps(c, Send(w, e), e);
  }

  lemma RenewKeeps(c: Config, w: World, e: Env)
    requires Invariant(w) && w.loaded
    ensures var (u, r) := Renew(c, w, e);
      Invariant(u) && u.loaded && (r.Ok? ==> Durable(u, r.value))
  {
    if w.session.Some? {
      RefreshKeeps(c, w, e);
      LoginKeeps(c, Refresh(c, w, e, w.session.value).0, e);
    }
    LoginKeeps(c, w, e);
  }

  lemma StepKeeps(c: Config, w: World, op: Op)
    requires Invariant(w)
    ensures var (u, r) := Step(c, w, op);
      Invariant(u) && (r.Some? && r.value.Ok? ==> Durable(u, r.value.value))
  {
    if op.Use? {
      UseKeeps(c, w, op.e);
    } else if op.Reject? {
      RejectKeeps(c, w, op.stale, op.e);
    } else {
      OtherKeeps(c, w, op);
    }
  }

  lemma OtherKeeps(c: Config, w: World, op: Op)
    requires Invariant(w) && !op.Use? && !op.Reject?
    ensures Invariant(Step(c, w, op).0) && Step(c, w, op).1.None?
  {
    if op.SignOut? {
      LogoutKeeps(c, w, op.e);
    } else if op.CrashInRotation? {
      CrashKeeps(c, w, op.e);
    } else {
      EndKeeps(c, w, op);
    }
  }

  lemma EndKeeps(c: Config, w: World, op: Op)
    requires Invariant(w) && (op.Crash? || op.PowerLoss?)
    ensures Invariant(Step(c, w, op).0)
  {
    if op.Crash? {
      RestartKeeps(w, op.lost);
    } else {
      FallBackKeeps(w, op.back);
      RestartKeeps(FallBack(w, op.back), op.lost);
    }
  }

  lemma LogoutKeeps(c: Config, w: World, e: Env)
    requires Invariant(w)
    ensures Invariant(Logout(c, w, e).0)
  {
    BeginKeeps(c, w, e);
  }

  lemma RestartKeeps(w: World, lost: nat)
    requires Invariant(w.(session := None))
    ensures Invariant(Restart(w.(issued := w.issued + lost)))
  {
  }

  lemma UseKeeps(c: Config, w: World, e: Env)
    requires Invariant(w)
    ensures var (u, r) := GetSession(c, w, e); Invariant(u) && (r.Ok? ==> Durable(u, r.value))
  {
    BeginKeeps(c, w, e);
    RenewKeeps(c, Begin(c, w, e), e);
  }

  lemma RejectKeeps(c: Config, w: World, stale: Option<nat>, e: Env)
    requires Invariant(w)
    ensures var (u, r) := Invalidate(c, w, e, stale); Invariant(u) && (r.Ok? ==> Durable(u, r.value))
  {
    BeginKeeps(c, w, e);
    RenewKeeps(c, Begin(c, w, e), e);
  }

  lemma CrashKeeps(c: Config, w: World, e: Env)
    requires Invariant(w)
    ensures Invariant(Step(c, w, CrashInRotation(e)).0)
  {
    BeginKeeps(c, w, e);
  }

  lemma FallBackKeeps(w: World, back: Option<StoredSession>)
    requires Invariant(w)
    ensures Invariant(FallBack(w, back).(session := None))
  {
  }

  lemma {:induction false} RunKeeps(c: Config, w: World, ops: seq<Op>)
    requires Invariant(w)
    ensures Invariant(Run(c, w, ops))
    decreases |ops|
  {
    if ops == [] {
    } else {
      StepKeeps(c, w, ops[0]);
      RunKeeps(c, Step(c, w, ops[0]).0, ops[1..]);
    }
  }

  /** The refresh token a renewal presents, if it does not log in at once. */
  function RenewalToken(c: Config, w: World, e: Env): Option<nat> {
    if w.session.None? || Expired(c.refreshExpiry(w.session.value.refresh), c.refreshFloor, e.wall) then None
    else Some(w.session.value.refresh)
  }

  /** The refresh token an operation presents to refreshSession. */
  function Presented(c: Config, w: World, op: Op): Option<nat> {
    match op
    case Use(e) =>
      var u := Begin(c, w, e);
      if u.session.Some? && !Expired(c.accessExpiry(u.session.value.access), c.refreshSkew, e.wall) then None
      else RenewalToken(c, u, e)
    case Reject(stale, e) =>
      var u := Begin(c, w, e);
      if stale.Some? && u.session.Some? && u.session.value.access != stale.value then None else RenewalToken(c, u, e)
    case CrashInRotation(e) =>
      var u := Begin(c, w, e);
      if u.session.None? then None else Some(u.session.value.refresh)
    case _ => None
  }

  /** What can go wrong with the rotation of `t` itself: its answer is lost, or is
      for another account and discarded, or the session in it cannot be saved, or the
      process ends before saving it; or a power loss brings `t` back after all that
      went well. */
  predicate RotationFails(c: Config, w: World, op: Op, t: nat) {
    match op
    case PowerLoss(back, _) =>
      back in w.stored && back != w.disk && back.Some? && back.value.refresh == t && t in w.spent
    case CrashInRotation(_) => Presented(c, w, op) == Some(t)
    case Use(e) => Presented(c, w, op) == Some(t) && AnswerFails(e)
    case Reject(_, e) => Presented(c, w, op) == Some(t) && AnswerFails(e)
    case _ => false
  }

  predicate AnswerFails(e: Env) {
    match e.refresh
    case RefreshFails(_, rotated) => rotated
    case Refreshed(sameDid) => !sameDid || !e.saveOk
  }

  lemma LoginLapsesNothing(c: Config, w: World, e: Env)
    ensures Login(c, w, e).0.replayed == w.replayed && Login(c, w, e).0.lapsed == w.lapsed
  {
  }

  lemma RefreshLapses(c: Config, w: World, e: Env, s: StoredSession)
    ensures var u := Refresh(c, w, e, s).0;
      && u.replayed == w.replayed + (if s.refresh in w.spent then {s.refresh} else {})
      && u.lapsed == w.lapsed + (if AnswerFails(e) then {s.refresh} else {})
  {
  }

  lemma RenewLapses(c: Config, w: World, e: Env)
    ensures var u, t := Renew(c, w, e).0, RenewalToken(c, w, e);
      && u.replayed == w.replayed + (if t.Some? && t.value in w.spent then {t.value} else {})
      && u.lapsed == w.lapsed + (if t.Some? && AnswerFails(e) then {t.value} else {})
  {
    LoginLapsesNothing(c, w, e);
    if w.session.Some? {
      RefreshLapses(c, w, e, w.session.value);
      LoginLapsesNothing(c, Refresh(c, w, e, w.session.value).0, e);
    }
  }

  /** One operation: what it adds to the replayed tokens, and that every token it
      adds to the lapsed ones is one whose rotation it let fail. */
  lemma StepLapses(c: Config, w: World, op: Op, t: nat)
    requires Invariant(w)
    ensures var u, p := Step(c, w, op).0, Presented(c, w, op);
      && u.replayed == w.replayed + (if p.Some? && p.value in w.spent then {p.value} else {})
      && (p.Some? && p.value in w.spent ==> p.value in w.lapsed)
      && w.lapsed <= u.lapsed
      && (t in u.lapsed && t !in w.lapsed ==> RotationFails(c, w, op, t))
  {
    if op.Use? || op.Reject? {
      BeginKeeps(c, w, op.e);
      RenewLapses(c, Begin(c, w, op.e), op.e);
    }
  }

  lemma {:induction false} LapsedByFailure(c: Config, w: World, ops: seq<Op>, t: nat) returns (i: nat)
    requires Invariant(w) && t !in w.lapsed && t in Run(c, w, ops).lapsed
    ensures i < |ops| && RotationFails(c, Run(c, w, ops[..i]), ops[i], t)
    decreases |ops|
  {
    var u := Step(c, w, ops[0]).0;
    StepLapses(c, w, ops[0], t);
    StepKeeps(c, w, ops[0]);
    if t in u.lapsed {
      i := 0;
    } else {
      i := LapsedByFailure(c, u, ops[1..], t);
      assert ops[..i + 1][1..] == ops[1..][..i];
      i := i + 1;
    }
  }

  /** Rotation safety: whenever any operation of any run presents a spent refresh
      token, an earlier one let the rotation of that very token fail. */
  lemma NoReplayWithoutItsFault(c: Config, w: World, ops: seq<Op>, op: Op) returns (i: nat)
    requires Fresh(w) && Presented(c, Run(c, w, ops), op).Some?
    requires Presented(c, Run(c, w, ops), op).value in Run(c, w, ops).spent
    ensures i < |ops|
    ensures RotationFails(c, Run(c, w, ops[..i]), ops[i], Presented(c, Run(c, w, ops), op).value)
  {
    var t := Presented(c, Run(c, w, ops), op).value;
    RunKeeps(c, w, ops);
    StepLapses(c, Run(c, w, ops), op, t);
    i := LapsedByFailure(c, w, ops, t);
  }

  /** Durable before use: whatever session a call returns, after any run, is what
      the store holds at that moment, unless saving that very session failed. */
  lemma DurableBeforeUse(c: Config, w: World, ops: seq<Op>, op: Op)
    requires Fresh(w)
    ensures var (u, r) := Step(c, Run(c, w, ops), op);
      r.Some? && r.value.Ok? ==> Durable(u, r.value.value)
  {
    RunKeeps(c, w, ops);
    StepKeeps(c, Run(c, w, ops), op);
  }

  // ----- one account's sessions ---------------------------------------------

  predicate Ours(c: Config, w: World) {
    w.session.Some? ==> w.session.value.service == c.service
  }

  lemma LoginIsOurs(c: Config, w: World, e: Env)
    requires Ours(c, w)
    ensures var (u, r) := Login(c, w, e); Ours(c, u) && (r.Ok? ==> r.value.service == c.service)
  {
  }

  lemma RenewalIsOurs(c: Config, w: World, e: Env)
    requires Ours(c, w)
    ensures var (u, r) := Renew(c, w, e); Ours(c, u) && (r.Ok? ==> r.value.service == c.service)
  {
    LoginIsOurs(c, w, e);
    if w.session.Some? {
      LoginIsOurs(c, Refresh(c, w, e, w.session.value).0, e);
    }
  }

  lemma StepStaysOurs(c: Config, w: World, op: Op)
    requires Ours(c, w)
    ensures var (u, r) := Step(c, w, op);
      Ours(c, u) && (r.Some? && r.value.Ok? ==> r.value.value.service == c.service)
  {
    if op.Use? || op.Reject? {
      RenewalIsOurs(c, Begin(c, w, op.e), op.e);
    }
  }

  /** Whatever is on disk, no call of any run hands out another service's session. */
  lemma {:induction false} OnlyOurSessions(c: Config, w: World, ops: seq<Op>, op: Op)
    requires Ours(c, w)
    ensures var (u, r) := Step(c, Run(c, w, ops), op);
      Ours(c, u) && (r.Some? && r.value.Ok? ==> r.value.value.service == c.service)
    decreases |ops|
  {
    if ops == [] {
      StepStaysOurs(c, w, op);
    } else {
      StepStaysOurs(c, w, ops[0]);
      OnlyOurSessions(c, Step(c, w, ops[0]).0, ops[1..], op);
    }
  }

  // ----- single flight ------------------------------------------------------

  /** Calls other threads may make while a token is being rejected. */
  predicate Renewing(op: Op) {
    op.Use? || op.Reject?
  }

  /** Successful renewals the `invalidate(t)` calls of a run cause. */
  function RenewalsFor(c: Config, w: World, ops: seq<Op>, t: nat): nat
    decreases |ops|
  {
    if ops == [] then 0
    else
      var u := Step(c, w, ops[0]).0;
      (if ops[0].Reject? && ops[0].stale == Some(t) && u.renewals > w.renewals then 1 else 0)
      + RenewalsFor(c, u, ops[1..], t)
  }

  /** The manager has moved on from token `t`. */
  predicate MovedOn(w: World, t: nat) {
    w.loaded && w.session.Some? && t < w.session.value.access
  }

  lemma LoginMovesOn(c: Config, w: World, e: Env, t: nat)
    requires Invariant(w) && w.loaded && t < w.issued
    ensures var (u, r) := Login(c, w, e);
      && (r.Ok? ==> MovedOn(u, t) && r.value == u.session.value && u.renewals == w.renewals + 1)
      && (r.Err? ==> u.session == w.session && u.renewals == w.renewals)
      && t < u.issued && u.loaded
  {
  }

  lemma RefreshMovesOn(c: Config, w: World, e: Env, t: nat)
    requires Invariant(w) && w.loaded && t < w.issued && w.session.Some?
    ensures var (u, r) := Refresh(c, w, e, w.session.value);
      && (r.Ok? ==> MovedOn(u, t) && r.value == u.session.value && u.renewals == w.renewals + 1)
      && (r.Err? ==> u.session == w.session && u.renewals == w.renewals)
      && t < u.issued && u.loaded
  {
  }

  lemma RenewMovesOn(c: Config, w: World, e: Env, t: nat)
    requires Invariant(w) && w.loaded && t < w.issued
    ensures var (u, r) := Renew(c, w, e);
      && (r.Ok? ==> MovedOn(u, t) && r.value == u.session.value && u.renewals == w.renewals + 1)
      && (r.Err? ==> u.session == w.session && u.renewals == w.renewals)
      && t < u.issued && u.loaded
  {
    LoginMovesOn(c, w, e, t);
    if w.session.Some? {
      RefreshKeeps(c, w, e);
      RefreshMovesOn(c, w, e, t);
      LoginMovesOn(c, Refresh(c, w, e, w.session.value).0, e, t);
    }
  }

  lemma StepMovesOn(c: Config, w: World, op: Op, t: nat)
    requires Invariant(w) && t < w.issued && Renewing(op)
    ensures var (u, r) := Step(c, w, op);
      && t < u.issued
      && (MovedOn(w, t) || u.renewals > w.renewals ==> MovedOn(u, t))
      && (MovedOn(w, t) && op.Reject? && op.stale == Some(t) ==> u.renewals == w.renewals)
      && (MovedOn(w, t) && r.value.Ok? ==> t < r.value.value.access)
      && (op.Reject? && op.stale == Some(t) && r.value.Ok? ==>
            r.value.value.access != t && r.value.value == u.session.value)
  {
    BeginKeeps(c, w, op.e);
    RenewMovesOn(c, Begin(c, w, op.e), op.e, t);
  }

  /** Single flight: however many callers report the same token stale, among any
      other session() and invalidate() calls, at most one renewal succeeds for it. */
  lemma {:induction false} OneRenewalPerStaleToken(c: Config, w: World, ops: seq<Op>, t: nat)
    requires Invariant(w) && t < w.issued && forall i :: 0 <= i < |ops| ==> Renewing(ops[i])
    ensures RenewalsFor(c, w, ops, t) <= if MovedOn(w, t) then 0 else 1
    decreases |ops|
  {
    if ops == [] {
    } else {
      StepMovesOn(c, w, ops[0], t);
      StepKeeps(c, w, ops[0]);
      OneRenewalPerStaleToken(c, Step(c, w, ops[0]).0, ops[1..], t);
    }
  }

  /** A token that outlives the skew at every look taken at it in the burst. */
  predicate Outlives(c: Config, ops: seq<Op>, token: nat) {
    forall i :: 0 <= i < |ops| && ops[i].Use? ==> !Expired(c.accessExpiry(token), c.refreshSkew, ops[i].e.wall)
  }

  lemma {:induction false} FreshTokenServesTheBurst(c: Config, w: World, ops: seq<Op>)
    requires Invariant(w) && w.loaded && w.session.Some? && Outlives(c, ops, w.session.value.access)
    requires forall i :: 0 <= i < |ops| ==> ops[i].Use?
    ensures Run(c, w, ops).renewals == w.renewals && Run(c, w, ops).session == w.session
    decreases |ops|
  {
    if ops == [] {
    } else {
      var u := Step(c, w, ops[0]).0;
      assert !Expired(c.accessExpiry(w.session.value.access), c.refreshSkew, ops[0].e.wall);
      assert u.session == w.session && u.renewals == w.renewals;
      StepKeeps(c, w, ops[0]);
      assert Outlives(c, ops[1..], u.session.value.access);
      FreshTokenServesTheBurst(c, u, ops[1..]);
    }
  }

  /** A burst of session() callers makes one renewal, if what the PDS issues
      outlives the skew for as long as the burst lasts. */
  lemma {:induction false} OneRenewalPerBurst(c: Config, w: World, ops: seq<Op>)
    requires Invariant(w) && forall i :: 0 <= i < |ops| ==> ops[i].Use?
    requires forall token :: token >= w.issued ==> Outlives(c, ops, token)
    ensures Run(c, w, ops).renewals <= w.renewals + 1
    decreases |ops|
  {
    if ops == [] {
    } else {
      var e := ops[0].e;
      var u := Step(c, w, ops[0]).0;
      BeginKeeps(c, w, e);
      StepKeeps(c, w, ops[0]);
      BurstStep(c, Begin(c, w, e), e);
      forall token | token >= w.issued ensures Outlives(c, ops[1..], token) {
        assert Outlives(c, ops, token);
      }
      if u.renewals > w.renewals {
        FreshTokenServesTheBurst(c, u, ops[1..]);
      } else {
        OneRenewalPerBurst(c, u, ops[1..]);
      }
    }
  }

  /** A renewal hands out a token no older than the ones not yet issued. */
  predicate RenewedFrom(w: World, u: World) {
    && u.issued >= w.issued && w.renewals <= u.renewals <= w.renewals + 1
    && (u.renewals > w.renewals ==> u.loaded && u.session.Some? && u.session.value.access >= w.issued)
  }

  lemma BurstStep(c: Config, w: World, e: Env)
    requires Invariant(w) && w.loaded
    ensures RenewedFrom(w, Renew(c, w, e).0)
  {
    LoginIssues(c, w, e);
    if w.session.Some? {
      RefreshIssues(c, w, e);
      LoginIssues(c, Refresh(c, w, e, w.session.value).0, e);
    }
  }

  lemma LoginIssues(c: Config, w: World, e: Env)
    requires w.loaded
    ensures RenewedFrom(w, Login(c, w, e).0)
  {
  }

  lemma RefreshIssues(c: Config, w: World, e: Env)
    requires w.loaded && w.session.Some?
    ensures var (u, r) := Refresh(c, w, e, w.session.value);
      RenewedFrom(w, u) && u.loaded && (r.Err? ==> u.renewals == w.renewals)
  {
  }

  // ----- backoff ------------------------------------------------------------

  /** The least total wait n consecutive failures impose. */
  function LeastWait(n: nat): (t: real)
    ensures t >= 0.0
  {
    if n == 0 then 0.0 else LeastWait(n - 1) + Backoff(n) / 2.0
  }

  /** Below the overflow, `nextLogin` sums up the failures since the last success
      and respects what the last one asked for. */
  predicate BackedOff(w: World) {
    && (w.lastFailure.Some? <==> w.failures > 0)
    && (0 < w.failures <= FLOAT_EXPONENTS ==>
          && w.firstFailure + LeastWait(w.failures) <= w.nextLogin
          && w.lastFailure.value.0 + Backoff(w.failures) / 2.0 <= w.nextLogin
          && Asked(w.lastFailure.value.1) <= w.nextLogin - w.lastFailure.value.0)
  }

  /** What an error itself says about waiting. */
  function Asked(error: Error): real {
    if error.Request? && error.failure.Xrpc? then
      var x := error.failure.error;
      var asked := if x.retryAfter.Some? then Max(0.0, x.retryAfter.value) else 0.0;
      if x.status == 401 || x.kind == "AuthenticationRequired" then Max(asked, MAX_LOGIN_BACKOFF) else asked
    else 0.0
  }

  lemma WaitIsLongEnough(n: nat, error: Error, jitter: real)
    requires n > 0 && 0.0 <= jitter < 1.0
    ensures Wait(n, error, jitter) >= Backoff(n) / 2.0 > 0.0 && Wait(n, error, jitter) >= Asked(error)
  {
  }

  lemma NoteKeepsBackoff(w: World, error: Error, jitter: real)
    requires BackedOff(w) && 0.0 <= jitter < 1.0
    requires 0 < w.failures <= FLOAT_EXPONENTS ==> w.nextLogin <= w.mono
    ensures BackedOff(NoteLoginFailure(w, error, jitter).0)
  {
    var n := w.failures + 1;
    if n <= FLOAT_EXPONENTS {
      WaitIsLongEnough(n, error, jitter);
      assert LeastWait(n) == LeastWait(n - 1) + Backoff(n) / 2.0;
      if n == 1 { assert LeastWait(0) == 0.0; }
    }
  }

  lemma AnswerKeepsBackoff(c: Config, w: World, e: Env)
    requires BackedOff(w) && ValidEnv(e) && w.nextLogin <= w.mono
    ensures BackedOff(Answer(c, w, e).0)
  {
    match e.login
    case LoginFails(f) => NoteKeepsBackoff(w, Request(f), e.jitter);
    case LoggedIn(active) => NoteKeepsBackoff(w.(issued := w.issued + 1), BadSession, e.jitter);
  }

  lemma LoginKeepsBackoff(c: Config, w: World, e: Env)
    requires BackedOff(w) && ValidEnv(e)
    ensures BackedOff(Login(c, w, e).0)
  {
    AnswerKeepsBackoff(c, Send(w, e), e);
  }

  lemma RefreshKeepsBackoff(c: Config, w: World, e: Env, current: StoredSession)
    requires BackedOff(w)
    ensures BackedOff(Refresh(c, w, e, current).0)
  {
  }

  lemma RenewKeepsBackoff(c: Config, w: World, e: Env)
    requires BackedOff(w) && ValidEnv(e)
    ensures BackedOff(Renew(c, w, e).0)
  {
    LoginKeepsBackoff(c, w, e);
    if w.session.Some? {
      RefreshKeepsBackoff(c, w, e, w.session.value);
      LoginKeepsBackoff(c, Refresh(c, w, e, w.session.value).0, e);
    }
  }

  predicate ValidOp(op: Op) {
    op.Crash? || op.PowerLoss? || ValidEnv(op.e)
  }

  lemma StepKeepsBackoff(c: Config, w: World, op: Op)
    requires BackedOff(w) && ValidOp(op)
    ensures BackedOff(Step(c, w, op).0)
  {
    if op.Use? || op.Reject? {
      assert BackedOff(Begin(c, w, op.e));
      RenewKeepsBackoff(c, Begin(c, w, op.e), op.e);
    }
  }

  lemma {:induction false} RunKeepsBackoff(c: Config, w: World, ops: seq<Op>)
    requires BackedOff(w) && forall i :: 0 <= i < |ops| ==> ValidOp(ops[i])
    ensures BackedOff(Run(c, w, ops))
    decreases |ops|
  {
    if ops == [] {
    } else {
      StepKeepsBackoff(c, w, ops[0]);
      RunKeepsBackoff(c, Step(c, w, ops[0]).0, ops[1..]);
    }
  }

  /** At most one createSession goes out, and not before `earliest`. */
  predicate SendsAfter(w: World, u: World, earliest: real) {
    || u.sends == w.sends
    || (|u.sends| == |w.sends| + 1 && u.sends[..|w.sends|] == w.sends && u.sends[|w.sends|] >= earliest)
  }

  lemma LoginSendsAfter(c: Config, w: World, e: Env, earliest: real)
    requires ValidEnv(e) && earliest <= w.nextLogin
    ensures SendsAfter(w, Login(c, w, e).0, earliest)
  {
  }

  lemma RenewSendsAfter(c: Config, w: World, e: Env, earliest: real)
    requires ValidEnv(e) && earliest <= w.nextLogin
    ensures SendsAfter(w, Renew(c, w, e).0, earliest)
  {
    LoginSendsAfter(c, w, e, earliest);
    if w.session.Some? {
      RefreshSendsNothing(c, w, e, w.session.value);
      LoginSendsAfter(c, Refresh(c, w, e, w.session.value).0, e, earliest);
    }
  }

  lemma RefreshSendsNothing(c: Config, w: World, e: Env, s: StoredSession)
    ensures var u := Refresh(c, w, e, s).0; u.sends == w.sends && u.nextLogin == w.nextLogin
  {
  }

  lemma StepSendsAfter(c: Config, w: World, op: Op, earliest: real)
    requires ValidOp(op) && earliest <= w.nextLogin
    ensures SendsAfter(w, Step(c, w, op).0, earliest)
  {
    if op.Use? || op.Reject? {
      RenewSendsAfter(c, Begin(c, w, op.e), op.e, earliest);
    }
  }

  /** Login backoff: after any run that leaves n consecutive failed logins behind,
      1 <= n <= 1024, the next operation sends no createSession before the sum of
      their backoffs has passed, counted from the first, nor before what the last
      one asked for, nor before 900 s after a 401. */
  lemma LoginsBackOff(c: Config, start: World, ops: seq<Op>, op: Op)
    requires Fresh(start) && ValidOp(op) && forall i :: 0 <= i < |ops| ==> ValidOp(ops[i])
    ensures var w := Run(c, start, ops);
      0 < w.failures <= FLOAT_EXPONENTS ==>
        && w.lastFailure.Some?
        && SendsAfter(w, Step(c, w, op).0, w.firstFailure + LeastWait(w.failures))
        && SendsAfter(w, Step(c, w, op).0, w.lastFailure.value.0 + Asked(w.lastFailure.value.1))
  {
    var w := Run(c, start, ops);
    RunKeepsBackoff(c, start, ops);
    if 0 < w.failures <= FLOAT_EXPONENTS {
      StepSendsAfter(c, w, op, w.firstFailure + LeastWait(w.failures));
      StepSendsAfter(c, w, op, w.lastFailure.value.0 + Asked(w.lastFailure.value.1));
    }
  }

  /** In closed form: 637.5 s for the first eight failures, 450 s for each further one. */
  lemma {:induction false} LeastWaitClosedForm(n: nat)
    requires n >= 8
    ensures LeastWait(n) == 637.5 + 450.0 * (n - 8) as real
  {
    if n == 8 {
      FirstEight();
    } else {
      LeastWaitClosedForm(n - 1);
      PowerAtLeast(n - 1);
    }
  }

  lemma FirstEight()
    ensures LeastWait(8) == 637.5
  {
  }

  lemma {:induction false} PowerAtLeast(n: nat)
    requires n >= 8
    ensures Pow2(n) >= 256.0
  {
    if n == 8 {
      assert Pow2(4) == 16.0;
      assert Pow2(8) == 2.0 * (2.0 * (2.0 * (2.0 * Pow2(4))));
    } else {
      PowerAtLeast(n - 1);
    }
  }

  /** The bound ends with the float range: a failed login sets a new wait, whatever
      the error and the jitter, exactly while at most 1023 failures precede it. After
      that the next login may go out at once. */
  lemma BackoffEndsAtOverflow(w: World)
    requires w.nextLogin <= w.mono
    ensures w.failures < FLOAT_EXPONENTS <==>
      forall error: Error, jitter: real {:trigger NoteLoginFailure(w, error, jitter)} :: 0.0 <= jitter < 1.0 ==>
        NoteLoginFailure(w, error, jitter).0.nextLogin > w.mono
  {
    forall error: Error, jitter: real | w.failures < FLOAT_EXPONENTS && 0.0 <= jitter < 1.0
      ensures NoteLoginFailure(w, error, jitter).0.nextLogin > w.mono
    {
      WaitIsLongEnough(w.failures + 1, error, jitter);
    }
    if w.failures >= FLOAT_EXPONENTS {
      assert NoteLoginFailure(w, BadSession, 0.0).0.nextLogin == w.nextLogin;
    }
  }

  // ----- each fault can lead to a replay -------------------------------------

  /** A world that holds one live session whose tokens never near their expiry. */
  function Holding(c: Config): World {
    var s := Some(StoredSession(c.service, 0, 0));
    World(None, false, 0, 0.0, s, 0.0, 1, {}, {}, {}, {s}, 0, {}, [], 0.0, None)
  }

  function Quiet(saveOk: bool, refresh: RefreshReply, login: LoginReply): Env {
    Env(true, saveOk, true, refresh, login, 0.0, 0.0, 0.0, 0.0, 0.0, 0.0)
  }

  /** Does running `ops` and then `last` replay token 0? */
  predicate Replays(c: Config, ops: seq<Op>, last: Op) {
    0 in Run(c, Holding(c), ops + [last]).replayed
  }

  /** None of the five exceptions can be dropped: after each of a failed save and a
      restart, a lost answer, an answer for another account with a failed login
      after it, a crash before the save, and a power loss after a clean rotation, the
      next rejection replays a spent token. */
  lemma EveryFaultCanReplay(c: Config)
    requires !Expired(c.refreshExpiry(0), c.refreshFloor, 0.0)
    ensures Fresh(Holding(c))
    ensures var ok := Quiet(true, Refreshed(true), LoggedIn(true)); var reject := Reject(None, ok);
      && Replays(c, [Reject(None, ok.(saveOk := false)), Crash(0)], reject)
      && Replays(c, [Reject(None, ok.(refresh := RefreshFails(Network, true)))], reject)
      && Replays(c, [Reject(None, Quiet(true, Refreshed(false), LoginFails(Network)))], reject)
      && Replays(c, [CrashInRotation(ok)], reject)
      && Replays(c, [reject, PowerLoss(Holding(c).disk, 0)], reject)
  {
    var ok := Quiet(true, Refreshed(true), LoggedIn(true));
    LostAnswersReplay(c, ok);
    EndsReplay(c, ok);
  }

  lemma LostAnswersReplay(c: Config, ok: Env)
    requires ok == Quiet(true, Refreshed(true), LoggedIn(true)) && !Expired(c.refreshExpiry(0), c.refreshFloor, 0.0)
    ensures Replays(c, [Reject(None, ok.(refresh := RefreshFails(Network, true)))], Reject(None, ok))
    ensures Replays(c, [Reject(None, Quiet(true, Refreshed(false), LoginFails(Network)))], Reject(None, ok))
  {
    ReplaysAfterOne(c, Reject(None, ok.(refresh := RefreshFails(Network, true))), Reject(None, ok));
    ReplaysAfterOne(c, Reject(None, Quiet(true, Refreshed(false), LoginFails(Network))), Reject(None, ok));
  }

  lemma EndsReplay(c: Config, ok: Env)
    requires ok == Quiet(true, Refreshed(true), LoggedIn(true)) && !Expired(c.refreshExpiry(0), c.refreshFloor, 0.0)
    ensures Replays(c, [CrashInRotation(ok)], Reject(None, ok))
    ensures Replays(c, [Reject(None, ok.(saveOk := false)), Crash(0)], Reject(None, ok))
    ensures Replays(c, [Reject(None, ok), PowerLoss(Holding(c).disk, 0)], Reject(None, ok))
  {
    ReplaysAfterOne(c, CrashInRotation(ok), Reject(None, ok));
    ReplaysAfterTwo(c, Reject(None, ok.(saveOk := false)), Crash(0), Reject(None, ok));
    ReplaysAfterTwo(c, Reject(None, ok), PowerLoss(Holding(c).disk, 0), Reject(None, ok));
  }

  lemma ReplaysAfterOne(c: Config, a: Op, last: Op)
    requires 0 in Step(c, Step(c, Holding(c), a).0, last).0.replayed
    ensures Replays(c, [a], last)
  {
    TwoOps(c, Holding(c), a, last);
    assert [a] + [last] == [a, last];
  }

  lemma ReplaysAfterTwo(c: Config, a: Op, b: Op, last: Op)
    requires 0 in Step(c, Step(c, Step(c, Holding(c), a).0, b).0, last).0.replayed
    ensures Replays(c, [a, b], last)
  {
    TwoOps(c, Step(c, Holding(c), a).0, b, last);
    assert ([a, b] + [last])[1..] == [b, last];
  }

  lemma TwoOps(c: Config, w: World, a: Op, b: Op)
    ensures Run(c, w, [a, b]) == Step(c, Step(c, w, a).0, b).0
  {
    assert [a, b][1..] == [b];
    var u := Step(c, w, a).0;
    OneOp(c, u, b);
    assert Run(c, w, [a, b]) == Run(c, u, [b]);
  }

  lemma OneOp(c: Config, w: World, a: Op)
    ensures Run(c, w, [a]) == Step(c, w, a).0
  {
  }
}
