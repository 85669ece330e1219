/**
  The retry loop of atproto/client.py: bounded retries with backoff, one renewal
  after a rejected token, and other threads using the session manager in between.
*/
module Client {
  import opened Common
  import opened Errors
  import opened Powers
  import opened Session
  import opened SessionRuns
  import opened Dealings

  /** The request after a rejection carries a token issued after the rejected one. */
  ghost predicate LeavesRejectedBehind(turns: nat -> Turn, tokens: seq<nat>) {
    forall i, j {:trigger tokens[i], tokens[j]} ::
      0 <= i < j < |tokens| && j == i + 1 && Auth(turns(i).response) ==> tokens[i] < tokens[j]
  }

  /** What one pass of the loop leads to. */
  datatype Recovery = Finished | Stop(error: CallError) | Renewed | Waited(wait: real)

  /** Where the loop stands between two passes. `floor` is one more than the token just
      rejected, if the last response was a rejection. */
  datatype Loop = Loop(log: seq<Dealing>, attempt: nat, authRetried: bool, floor: nat, slept: real) {
    /** The number of the next request. */
    function Next(): nat {
      |Sent(log)|
    }
  }

  /** What one pass adds: the dealings up to its session(), those up to its end, the
      token sent, if it came that far, and what follows. */
  datatype Passage = Passage(asked: seq<Dealing>, log: seq<Dealing>, sent: Option<nat>, next: Recovery)

  // ----- tokens never go back -----------------------------------------------

  predicate AtLeast(w: World, t: nat) {
    w.loaded && w.session.Some? && t <= w.session.value.access
  }

  lemma LoginAtLeast(c: Config, w: World, e: Env, t: nat)
    requires Invariant(w) && AtLeast(w, t)
    ensures var (u, r) := Login(c, w, e);
      AtLeast(u, t) && (r.Ok? ==> r.value == u.session.value && u.session.value.access >= w.issued)
  {
  }

  lemma RenewAtLeast(c: Config, w: World, e: Env, t: nat)
    requires Invariant(w) && AtLeast(w, t)
    ensures var (u, r) := Renew(c, w, e);
      AtLeast(u, t) && (r.Ok? ==> r.value == u.session.value && u.session.value.access >= w.issued)
  {
    LoginAtLeast(c, w, e, t);
    RefreshKeeps(c, w, e);
    LoginAtLeast(c, Refresh(c, w, e, w.session.value).0, e, t);
  }

  lemma StepAtLeast(c: Config, w: World, op: Op, t: nat)
    requires Invariant(w) && AtLeast(w, t) && Renewing(op)
    ensures Invariant(Step(c, w, op).0) && AtLeast(Step(c, w, op).0, t)
  {
    BeginKeeps(c, w, op.e);
    StepKeeps(c, w, op);
    RenewAtLeast(c, Begin(c, w, op.e), op.e, t);
  }

  lemma {:induction false} RunAtLeast(c: Config, w: World, ops: seq<Op>, t: nat)
    requires Invariant(w) && AtLeast(w, t) && forall i :: 0 <= i < |ops| ==> Renewing(ops[i])
    ensures Invariant(Run(c, w, ops)) && AtLeast(Run(c, w, ops), t)
    decreases |ops|
  {
    if ops == [] {
    } else {
      StepAtLeast(c, w, ops[0], t);
      RunAtLeast(c, Step(c, w, ops[0]).0, ops[1..], t);
    }
  }

  /** What session() returns is what the manager then holds. */
  lemma ReturnedIsHeld(c: Config, w: World, e: Env)
    requires Invariant(w)
    ensures var (u, r) := GetSession(c, w, e);
      && Invariant(u)
      && (r.Ok? ==> u.loaded && u.session == Some(r.value))
      && (r.Ok? && w.session.Some? && w.loaded ==> w.session.value.access <= r.value.access)
  {
    BeginKeeps(c, w, e);
    StepKeeps(c, w, Use(e));
    RenewHolds(c, Begin(c, w, e), e);
  }

  lemma RenewHolds(c: Config, w: World, e: Env)
    requires Invariant(w) && w.loaded
    ensures var (u, r) := Renew(c, w, e);
      r.Ok? ==> u.loaded && u.session == Some(r.value) && r.value.access >= w.issued
  {
  }

  /** After a successful invalidation of the token held at `t`, it is left behind. */
  lemma InvalidateLeavesBehind(c: Config, w: World, e: Env, t: nat)
    requires Invariant(w) && AtLeast(w, t)
    ensures var (u, r) := Invalidate(c, w, e, Some(t));
      Invariant(u) && (r.Ok? ==> AtLeast(u, t + 1))
  {
    BeginKeeps(c, w, e);
    StepKeeps(c, w, Reject(Some(t), e));
    RenewHolds(c, Begin(c, w, e), e);
  }

  // ----- the loop -----------------------------------------------------------

  class AtpClient {
    const session: SessionManager
    const maxRetries: nat
    const baseBackoff: real
    const maxBackoff: real

    constructor (session: SessionManager, maxRetries: nat, baseBackoff: real, maxBackoff: real)
      ensures this.session == session && this.maxRetries == maxRetries
      ensures this.baseBackoff == baseBackoff && this.maxBackoff == maxBackoff
    {
      this.session, this.maxRetries, this.baseBackoff, this.maxBackoff := session, maxRetries, baseBackoff, maxBackoff;
    }

    predicate Valid() {
      baseBackoff >= 0.0 && maxBackoff >= 0.0
    }

    /** The longest wait before retry number `attempt` + 1: what the server asked for,
        or the base doubled as often, and never more than the maximum. */
    function LongestWait(attempt: nat, f: Failure): (wait: real)
      requires Valid()
      ensures wait <= maxBackoff
    {
      Min(if NamesWait(f) then f.error.retryAfter.value else baseBackoff * Pow2(attempt), maxBackoff)
    }

    /** The jitter takes off up to half of a wait the server did not name. */
    function ShortestWait(attempt: nat, f: Failure): (wait: real)
      requires Valid()
    {
      if NamesWait(f) then LongestWait(attempt, f) else LongestWait(attempt, f) / 2.0
    }

    /** Past 1023 attempts the power leaves the float range, unless the server said
        how long to wait. */
    function BackoffFor(attempt: nat, f: Failure, jitter: real): (wait: Option<real>)
      requires Valid() && 0.0 <= jitter < 1.0
      ensures wait.None? <==> attempt >= FLOAT_EXPONENTS && !NamesWait(f)
      ensures wait.Some? ==> ShortestWait(attempt, f) <= wait.value <= LongestWait(attempt, f)
    {
      if f.Xrpc? && f.error.retryAfter.Some? then Some(Min(f.error.retryAfter.value, maxBackoff))
      else if attempt >= FLOAT_EXPONENTS then None
      else
        var exponential := Min(baseBackoff * Pow2(attempt), maxBackoff);
        NotNegative(baseBackoff, Pow2(attempt));
        JitterShrinks(exponential, 0.5 + jitter / 2.0);
        Some(exponential * (0.5 + jitter / 2.0))
    }

    /** The jitter spreads the waits over the bounds. */
    lemma JitterSpreads(attempt: nat, f: Failure)
      requires Valid() && !NamesWait(f) && attempt < FLOAT_EXPONENTS
      ensures BackoffFor(attempt, f, 0.0) == Some(ShortestWait(attempt, f))
      ensures BackoffFor(attempt, f, 0.5) == Some(LongestWait(attempt, f) * 0.75)
    {
    }

    lemma NotNegative(a: real, b: real)
      requires a >= 0.0 && b >= 0.0
      ensures a * b >= 0.0
    {
    }

    lemma JitterShrinks(b: real, factor: real)
      requires b >= 0.0 && 0.5 <= factor <= 1.0
      ensures b / 2.0 <= b * factor <= b
    {
      NotNegative(b, factor - 0.5);
      NotNegative(b, 1.0 - factor);
    }

    /** Other threads' calls on the shared manager. */
    method Interfere(ops: seq<Op>)
      requires forall i :: 0 <= i < |ops| ==> Renewing(ops[i])
      modifies session, session.outside
      ensures session.View() == Run(session.c, old(session.View()), ops)
      decreases |ops|
    {
      if ops != [] {
        match ops[0] {
          case Use(e) => var _ := session.Session(e);
          case Reject(stale, e) => var _ := session.InvalidateToken(stale, e);
        }
        Interfere(ops[1..]);
      }
    }

    /** Whatever the others do, a token left behind stays behind. */
    method Interleave(ops: seq<Op>, ghost floor: nat)
      requires Invariant(session.View()) && forall i :: 0 <= i < |ops| ==> Renewing(ops[i])
      modifies session, session.outside
      ensures Invariant(session.View())
      ensures session.View() == Run(session.c, old(session.View()), ops)
      ensures old(AtLeast(session.View(), floor)) ==> AtLeast(session.View(), floor)
    {
      RunKeeps(session.c, session.View(), ops);
      if AtLeast(session.View(), floor) {
        RunAtLeast(session.c, session.View(), ops, floor);
      }
      Interfere(ops);
    }

    /** session(), seen from the caller: the token it gets is the one held, and is
        past any the manager has left behind. */
    method Acquire(e: Env, ghost floor: nat) returns (r: Reply)
      requires Invariant(session.View())
      modifies session, session.outside
      ensures Invariant(session.View())
      ensures (session.View(), r) == GetSession(session.c, old(session.View()), e)
      ensures r.Ok? ==> AtLeast(session.View(), r.value.access)
      ensures r.Ok? && old(AtLeast(session.View(), floor)) ==> floor <= r.value.access
    {
      ReturnedIsHeld(session.c, session.View(), e);
      r := session.Session(e);
    }

    /** invalidate(token) after `token` was rejected. */
    method GiveUp(token: nat, e: Env) returns (r: Reply)
      requires Invariant(session.View()) && AtLeast(session.View(), token)
      modifies session, session.outside
      ensures Invariant(session.View())
      ensures (session.View(), r) == Invalidate(session.c, old(session.View()), e, Some(token))
      ensures r.Ok? ==> AtLeast(session.View(), token + 1)
    {
      InvalidateLeavesBehind(session.c, session.View(), e, token);
      r := session.InvalidateToken(Some(token), e);
    }

    /** The manager is sound and has left behind every token below `floor`. */
    ghost predicate Past(floor: nat)
      reads session, session.outside
    {
      Invariant(session.View()) && (floor > 0 ==> AtLeast(session.View(), floor))
    }

    /** The dealings with the manager up to now. */
    ghost predicate Logged(w: World, turns: nat -> Turn, log: seq<Dealing>)
      reads session, session.outside
    {
      Genuine(session.c, w, turns, log) && session.View() == Latest(w, log)
    }

    /** `log'` is `log` and one more dealing. */
    ghost predicate OneMore(log: seq<Dealing>, log': seq<Dealing>, r: Reply, invalidation: bool) {
      && log' != [] && log'[..|log'| - 1] == log && log'[|log'| - 1].reply == r
      && Sent(log') == Sent(log) + (if !invalidation && r.Ok? then [r.value.access] else [])
      && Invalidations(log') == Invalidations(log) + if invalidation then 1 else 0
    }

    /** One pass up to the request: the token it carries. */
    method NextToken(turns: nat -> Turn, n: nat, ghost w: World, ghost log: seq<Dealing>, ghost floor: nat)
      returns (r: Reply, ghost log': seq<Dealing>)
      requires ValidTurn(turns(n)) && Past(floor) && Logged(w, turns, log) && |Sent(log)| == n
      modifies session, session.outside
      ensures Invariant(session.View()) && Logged(w, turns, log') && OneMore(log, log', r, false)
      ensures r.Ok? ==> AtLeast(session.View(), r.value.access) && floor <= r.value.access
    {
      Interleave(turns(n).before, floor);
      ghost var found := session.View();
      r := Acquire(turns(n).get, floor);
      ghost var d := Dealing(found, Use(turns(n).get), session.View(), r);
      LogAppends(session.c, w, turns, log, d);
      log' := log + [d];
    }

    /** `token` went out with request number `n`, the last one. */
    ghost predicate WentOut(n: nat, token: nat, log: seq<Dealing>) {
      |Sent(log)| == n + 1 && Sent(log)[n] == token
    }

    /** What the manager makes of the token just rejected. */
    method Renewal(turns: nat -> Turn, n: nat, token: nat, ghost w: World, ghost log: seq<Dealing>)
      returns (r: Reply, ghost log': seq<Dealing>)
      requires Auth(turns(n).response) && ValidTurn(turns(n)) && WentOut(n, token, log)
      requires Invariant(session.View()) && AtLeast(session.View(), token) && Logged(w, turns, log)
      modifies session, session.outside
      ensures Invariant(session.View()) && Logged(w, turns, log') && OneMore(log, log', r, true)
      ensures r.Ok? ==> AtLeast(session.View(), token + 1)
    {
      Interleave(turns(n).between, token);
      ghost var found := session.View();
      r := GiveUp(token, turns(n).renew);
      ghost var d := Dealing(found, Reject(Some(token), turns(n).renew), session.View(), r);
      LogAppends(session.c, w, turns, log, d);
      log' := log + [d];
    }

    /** The failures of request number `attempt` + 1 that are raised. */
    predicate GivesUp(f: Failure, authRetried: bool, attempt: nat) {
      if IsAuth(f) then authRetried else !Retryable(f) || attempt >= maxRetries
    }

    /** Any other failure but a rejection is waited out, if the wait can be computed. */
    predicate WaitsOut(f: Failure, attempt: nat, next: Recovery)
      requires Valid()
    {
      if attempt >= FLOAT_EXPONENTS && !NamesWait(f) then next == Stop(BackoffOverflow)
      else next.Waited? && ShortestWait(attempt, f) <= next.wait <= LongestWait(attempt, f)
    }

    /** The manager's answer to a rejection, and what follows it. */
    ghost predicate Renews(log: seq<Dealing>, log': seq<Dealing>, next: Recovery) {
      && log' != [] && OneMore(log, log', log'[|log'| - 1].reply, true)
      && next == match log'[|log'| - 1].reply
                 case Ok(_) => Renewed
                 case Err(error) => Stop(SessionFailed(error))
    }

    /** What follows a failure. */
    ghost predicate Recovers(f: Failure, authRetried: bool, attempt: nat, log: seq<Dealing>, log': seq<Dealing>,
                             next: Recovery)
      requires Valid()
    {
      if GivesUp(f, authRetried, attempt) then log' == log && next == Stop(RequestFailed(f))
      else if IsAuth(f) then Renews(log, log', next)
      else log' == log && WaitsOut(f, attempt, next)
    }

    /** The except clauses: what a failed request leads to. */
    method Recover(turns: nat -> Turn, n: nat, failure: Failure, token: nat, authRetried: bool, attempt: nat,
                   ghost w: World, ghost log: seq<Dealing>)
      returns (next: Recovery, ghost log': seq<Dealing>)
      requires Valid() && ValidTurn(turns(n)) && turns(n).response == Failed(failure) && WentOut(n, token, log)
      requires Invariant(session.View()) && AtLeast(session.View(), token) && Logged(w, turns, log)
      modifies session, session.outside
      ensures Invariant(session.View()) && Logged(w, turns, log')
      ensures Recovers(failure, authRetried, attempt, log, log', next)
      ensures next.Renewed? ==> AtLeast(session.View(), token + 1)
    {
      log' := log;
      if failure.Xrpc? && (failure.error.IsExpiredToken() || failure.error.IsInvalidToken()) {
        if authRetried {
          return Stop(RequestFailed(failure)), log';
        }
        var renewed;
        renewed, log' := Renewal(turns, n, token, w, log);
        return if renewed.Ok? then Renewed else Stop(SessionFailed(renewed.error)), log';
      }
      if !Retryable(failure) || attempt >= maxRetries {
        return Stop(RequestFailed(failure)), log';
      }
      var wait := BackoffFor(attempt, failure, turns(n).jitter);
      return if wait.Some? then Waited(wait.value) else Stop(BackoffOverflow), log';
    }

    /** A pass asks for a session, and with one the response says what follows. */
    ghost predicate Passed(turns: nat -> Turn, l: Loop, p: Passage)
      requires Valid()
    {
      && p.asked != []
      && var answer, response := p.asked[|p.asked| - 1].reply, turns(l.Next()).response;
      && OneMore(l.log, p.asked, answer, false)
      && p.sent == (if answer.Ok? then Some(answer.value.access) else None)
      && (p.sent.Some? ==> l.floor <= p.sent.value)
      && if answer.Err? then p.log == p.asked && p.next == Stop(SessionFailed(answer.error))
         else if response.Success? then p.log == p.asked && p.next == Finished
         else Recovers(response.failure, l.authRetried, l.attempt, p.asked, p.log, p.next)
    }

    // ----- how long a call sleeps -------------------------------------------

    /** The least and the most the waits after the first `n` responses can come to. */
    function LeastSleep(turns: nat -> Turn, n: nat): real
      requires Valid()
    {
      if n == 0 then 0.0
      else
        var r := turns(n - 1).response;
        LeastSleep(turns, n - 1)
        + if r.Success? || Auth(r) then 0.0 else ShortestWait(RetriesBefore(turns, n - 1), r.failure)
    }

    function MostSleep(turns: nat -> Turn, n: nat): real
      requires Valid()
    {
      if n == 0 then 0.0
      else
        var r := turns(n - 1).response;
        MostSleep(turns, n - 1)
        + if r.Success? || Auth(r) then 0.0 else LongestWait(RetriesBefore(turns, n - 1), r.failure)
    }

    /** What the waits of `n` retries can come to. */
    function Budget(n: nat): real {
      if n == 0 then 0.0 else Budget(n - 1) + maxBackoff
    }

    lemma {:induction false} BudgetIsProduct(n: nat)
      ensures Budget(n) == n as real * maxBackoff
    {
      if n == 0 {
      } else {
        BudgetIsProduct(n - 1);
        OneMoreWait(n - 1);
      }
    }

    lemma {:induction false} BudgetGrows(n: nat, m: nat)
      requires Valid() && n <= m
      ensures Budget(n) <= Budget(m)
    {
      if n == m {
      } else {
        BudgetGrows(n, m - 1);
      }
    }

    /** max_retries * max_backoff seconds */
    function WaitLimit(): real {
      maxRetries as real * maxBackoff
    }

    lemma WithinBudget(n: nat)
      requires Valid() && n <= maxRetries
      ensures Budget(n) <= WaitLimit()
    {
      BudgetGrows(n, maxRetries);
      BudgetIsProduct(maxRetries);
    }

    lemma OneMoreWait(a: nat)
      ensures (a + 1) as real * maxBackoff == a as real * maxBackoff + maxBackoff
    {
    }

    /** No response has decided yet, and the variables say what there was. */
    ghost predicate Undecided(turns: nat -> Turn, l: Loop) {
      && AllGranted(l.log) && NoneDecides(turns, l.Next(), maxRetries)
      && l.Next() == l.attempt + (if l.authRetried then 1 else 0) && l.attempt <= maxRetries
      && (l.authRetried <==> RejectedBefore(turns, l.Next()))
    }

    /** So far no rejected token was sent again. */
    ghost predicate Clean(turns: nat -> Turn, l: Loop) {
      FloorIsLast(turns, Sent(l.log), l.floor) && LeavesRejectedBehind(turns, Sent(l.log))
    }

    /** And there was one renewal at most, and no long sleep. */
    ghost predicate Modest(turns: nat -> Turn, l: Loop)
      requires Valid()
    {
      && Invalidations(l.log) == (if RejectedBefore(turns, l.Next()) then 1 else 0)
      && LeastSleep(turns, l.Next()) <= l.slept <= MostSleep(turns, l.Next())
      && l.slept <= Budget(l.attempt)
    }

    /** The loop's bookkeeping between two passes. */
    ghost predicate Going(turns: nat -> Turn, l: Loop)
      requires Valid()
    {
      Undecided(turns, l) && Clean(turns, l) && Modest(turns, l)
    }

    function Start(): Loop {
      Loop([], 0, false, 0, 0.0)
    }

    lemma StartsGoing(turns: nat -> Turn)
      requires Valid()
      ensures Going(turns, Start())
    {
    }

    /** Bounded work, whatever the server does; one renewal; and a token the server
        rejected is not the one sent next. */
    ghost predicate Within(turns: nat -> Turn, log: seq<Dealing>, slept: real)
      requires Valid()
    {
      && |Sent(log)| <= maxRetries + 2
      && Invalidations(log) == (if RejectedBefore(turns, |Sent(log)|) then 1 else 0)
      && LeavesRejectedBehind(turns, Sent(log))
      && log != []
      && var n := if log[|log| - 1].reply.Ok? then |Sent(log)| - 1 else |Sent(log)|;
      && n >= 0 && LeastSleep(turns, n) <= slept <= MostSleep(turns, n) && slept <= WaitLimit()
    }

    /** What a call has come to: the manager's answers and the responses decide. */
    ghost predicate Done(turns: nat -> Turn, log: seq<Dealing>, slept: real, r: Result<(), CallError>)
      requires Valid()
    {
      && Outcome(turns, maxRetries, log, r)
      && Within(turns, log, slept)
      && (r == Err(BackoffOverflow) ==> maxRetries > FLOAT_EXPONENTS)
    }

    /** The loop's variables say whether the next response decides. */
    lemma DecidesMeans(turns: nat -> Turn, l: Loop)
      requires Undecided(turns, l)
      ensures RetriesBefore(turns, l.Next()) == l.attempt
      ensures var r := turns(l.Next()).response;
        Decides(turns, l.Next(), maxRetries) <==> r.Success? || GivesUp(r.failure, l.authRetried, l.attempt)
    {
    }

    /** A pass that goes on got what it asked for, and its response did not decide. */
    lemma GoesOn(turns: nat -> Turn, l: Loop, p: Passage)
      requires Valid() && Undecided(turns, l) && Passed(turns, l, p) && (p.next.Renewed? || p.next.Waited?)
      ensures p.sent.Some? && Sent(p.log) == Sent(l.log) + [p.sent.value] && Undecided(turns, After(l, p))
      ensures p.next.Renewed? ==> !l.authRetried
      ensures p.next.Waited? ==> l.attempt < maxRetries
    {
      DecidesMeans(turns, l);
    }

    lemma RenewalIsModest(turns: nat -> Turn, l: Loop, p: Passage)
      requires Valid() && Modest(turns, l) && Passed(turns, l, p) && p.next.Renewed?
      requires !RejectedBefore(turns, l.Next())
      ensures Modest(turns, After(l, p))
    {
    }

    lemma OneIsSent(turns: nat -> Turn, l: Loop, p: Passage)
      requires Valid() && Passed(turns, l, p) && p.sent.Some?
      ensures Sent(p.log) == Sent(l.log) + [p.sent.value] && l.floor <= p.sent.value
    {
    }

    lemma SentIsClean(turns: nat -> Turn, l: Loop, p: Passage)
      requires Clean(turns, l) && p.sent.Some?
      requires Sent(p.log) == Sent(l.log) + [p.sent.value] && l.floor <= p.sent.value
      ensures LeavesRejectedBehind(turns, Sent(p.log))
    {
      SendKeeps(turns, Sent(l.log), l.floor, p.sent.value);
    }

    lemma FloorFollows(turns: nat -> Turn, l: Loop, p: Passage)
      requires Valid() && Passed(turns, l, p) && (p.next.Renewed? || p.next.Waited?)
      ensures FloorIsLast(turns, Sent(p.log), After(l, p).floor)
    {
      OneIsSent(turns, l, p);
    }

    lemma CleanGoesOn(turns: nat -> Turn, l: Loop, p: Passage)
      requires Valid() && Clean(turns, l) && Passed(turns, l, p) && (p.next.Renewed? || p.next.Waited?)
      ensures Clean(turns, After(l, p))
    {
      OneIsSent(turns, l, p);
      SentIsClean(turns, l, p);
      FloorFollows(turns, l, p);
    }

    lemma WaitIsModest(turns: nat -> Turn, l: Loop, p: Passage)
      requires Valid() && Modest(turns, l) && Passed(turns, l, p) && p.next.Waited?
      requires RetriesBefore(turns, l.Next()) == l.attempt
      ensures Modest(turns, After(l, p))
    {
      WaitIsWithin(turns, l.Next(), turns(l.Next()).response.failure, p.next.wait);
    }

    /** The wait lies within its bounds, and within its share of the budget. */
    lemma WaitIsWithin(turns: nat -> Turn, n: nat, f: Failure, wait: real)
      requires Valid() && turns(n).response == Failed(f) && !IsAuth(f)
      requires WaitsOut(f, RetriesBefore(turns, n), Waited(wait))
      ensures wait <= maxBackoff
      ensures LeastSleep(turns, n + 1) <= LeastSleep(turns, n) + wait
      ensures MostSleep(turns, n) + wait <= MostSleep(turns, n + 1)
    {
    }

    /** The end: an exception of the manager, or a response that decides. */
    lemma RefusalDecides(turns: nat -> Turn, l: Loop, p: Passage)
      requires Valid() && Undecided(turns, l) && Passed(turns, l, p) && p.next.Stop? && p.next.error.SessionFailed?
      ensures Outcome(turns, maxRetries, p.log, Err(p.next.error))
    {
      DecidesMeans(turns, l);
    }

    lemma ResponseDecides(turns: nat -> Turn, l: Loop, p: Passage)
      requires Valid() && Undecided(turns, l) && Passed(turns, l, p)
      requires p.next.Finished? || (p.next.Stop? && !p.next.error.SessionFailed?)
      ensures Outcome(turns, maxRetries, p.log, if p.next.Finished? then Ok(()) else Err(p.next.error))
      ensures p.next == Stop(BackoffOverflow) ==> maxRetries > FLOAT_EXPONENTS
    {
      DecidesMeans(turns, l);
    }

    lemma UnsentWithin(turns: nat -> Turn, l: Loop, p: Passage)
      requires Valid() && Going(turns, l) && Passed(turns, l, p) && p.sent.None?
      ensures Within(turns, p.log, l.slept)
    {
      WithinBudget(l.attempt);
    }

    lemma RefusedWithin(turns: nat -> Turn, l: Loop, p: Passage)
      requires Valid() && Going(turns, l) && Passed(turns, l, p) && p.next.Stop? && p.next.error.SessionFailed?
      requires p.sent.Some?
      ensures Within(turns, p.log, l.slept)
    {
      WithinBudget(l.attempt);
      OneIsSent(turns, l, p);
      SentIsClean(turns, l, p);
    }

    lemma AnsweredWithin(turns: nat -> Turn, l: Loop, p: Passage)
      requires Valid() && Going(turns, l) && Passed(turns, l, p)
      requires p.next.Finished? || (p.next.Stop? && !p.next.error.SessionFailed?)
      ensures Within(turns, p.log, l.slept)
    {
      WithinBudget(l.attempt);
      OneIsSent(turns, l, p);
      SentIsClean(turns, l, p);
    }

    /** The loop after a pass. */
    function After(l: Loop, p: Passage): Loop {
      match p.next
      case Renewed => Loop(p.log, l.attempt, true, if p.sent.Some? then p.sent.value + 1 else 0, l.slept)
      case Waited(wait) => Loop(p.log, l.attempt + 1, l.authRetried, 0, l.slept + wait)
      case _ => Loop(p.log, l.attempt, l.authRetried, 0, l.slept)
    }

    /** Where a pass leads: to the end, or around the loop. */
    ghost predicate Led(turns: nat -> Turn, l: Loop, next: Recovery, l': Loop)
      requires Valid()
    {
      match next
      case Finished => Done(turns, l'.log, l.slept, Ok(()))
      case Stop(error) => Done(turns, l'.log, l.slept, Err(error))
      case Renewed =>
        && Going(turns, l') && !l.authRetried
        && l'.authRetried && l'.attempt == l.attempt && l'.slept == l.slept
      case Waited(wait) =>
        && Going(turns, l') && l.attempt < maxRetries
        && l'.authRetried == l.authRetried && l'.attempt == l.attempt + 1 && l'.slept == l.slept + wait
    }

    lemma PassLeads(turns: nat -> Turn, l: Loop, p: Passage)
      requires Valid() && Going(turns, l) && Passed(turns, l, p)
      ensures Led(turns, l, p.next, After(l, p))
    {
      if p.next.Renewed? {
        GoesOn(turns, l, p);
        CleanGoesOn(turns, l, p);
        RenewalIsModest(turns, l, p);
      } else if p.next.Waited? {
        GoesOn(turns, l, p);
        DecidesMeans(turns, l);
        CleanGoesOn(turns, l, p);
        WaitIsModest(turns, l, p);
      } else if p.next.Stop? && p.next.error.SessionFailed? {
        RefusalDecides(turns, l, p);
        if p.sent.None? {
          UnsentWithin(turns, l, p);
        } else {
          RefusedWithin(turns, l, p);
        }
      } else {
        ResponseDecides(turns, l, p);
        AnsweredWithin(turns, l, p);
      }
    }

    /** A session, a request with its token, and what a failure leads to. */
    method TryOnce(turns: nat -> Turn, n: nat, authRetried: bool, attempt: nat, ghost w: World, ghost l: Loop)
      returns (sent: Option<nat>, next: Recovery, ghost p: Passage)
      requires Valid() && ValidTurn(turns(n)) && Past(l.floor) && Logged(w, turns, l.log)
      requires l.Next() == n && l.authRetried == authRetried && l.attempt == attempt
      modifies session, session.outside
      ensures Past(After(l, p).floor) && Logged(w, turns, p.log)
      ensures p.sent == sent && p.next == next && Passed(turns, l, p)
    {
      var got;
      ghost var asked;
      got, asked := NextToken(turns, n, w, l.log, l.floor);
      ghost var log := asked;
      if got.Err? {
        sent, next := None, Stop(SessionFailed(got.error));
      } else if turns(n).response.Success? {
        sent, next := Some(got.value.access), Finished;
      } else {
        sent := Some(got.value.access);
        next, log := Recover(turns, n, turns(n).response.failure, got.value.access, authRetried, attempt, w, log);
      }
      p := Passage(asked, log, sent, next);
    }

    /** One pass of the loop: the token it sent, if it came that far, and what follows. */
    method Pass(turns: nat -> Turn, n: nat, authRetried: bool, attempt: nat, ghost w: World, ghost l: Loop)
      returns (sent: Option<nat>, next: Recovery, ghost l': Loop)
      requires Valid() && ValidTurn(turns(n)) && Past(l.floor) && Logged(w, turns, l.log) && Going(turns, l)
      requires l.Next() == n && l.authRetried == authRetried && l.attempt == attempt
      modifies session, session.outside
      ensures Past(l'.floor) && Logged(w, turns, l'.log)
      ensures Sent(l'.log) == Sent(l.log) + if sent.Some? then [sent.value] else []
      ensures Led(turns, l, next, l')
    {
      ghost var p;
      sent, next, p := TryOnce(turns, n, authRetried, attempt, w, l);
      PassLeads(turns, l, p);
      l' := After(l, p);
    }

    /** Calls an XRPC method. `tokens` lists the access token of each request sent,
        `log` the dealings with the session manager. */
    method Call(turns: nat -> Turn)
      returns (r: Result<(), CallError>, tokens: seq<nat>, slept: real, ghost log: seq<Dealing>)
      requires Valid() && Invariant(session.View()) && AllValid(turns)
      modifies session, session.outside
      ensures Invariant(session.View())
      ensures Logged(old(session.View()), turns, log) && tokens == Sent(log)
      ensures Done(turns, log, slept, r)
    {
      var authRetried := false;
      var attempt: nat := 0;
      tokens, slept := [], 0.0;
      ghost var w, l := session.View(), Start();
      StartsGoing(turns);

      while true
        invariant Past(l.floor) && Logged(w, turns, l.log) && Going(turns, l)
        invariant tokens == Sent(l.log) && authRetried == l.authRetried && attempt == l.attempt && slept == l.slept
        decreases maxRetries - attempt + if authRetried then 0 else 1
      {
        ValidAt(turns, |tokens|);
        var sent, next;
        sent, next, l := Pass(turns, |tokens|, authRetried, attempt, w, l);
        if sent.Some? {
          tokens := tokens + [sent.value];
        }
        match next {
          case Finished => return Ok(()), tokens, slept, l.log;
          case Stop(error) => return Err(error), tokens, slept, l.log;
          case Renewed =>
            authRetried := true;
          case Waited(wait) =>
            attempt := attempt + 1;
            slept := slept + wait;
        }
      }
    }
  }

  /** After a rejection the floor is past the rejected token. */
  predicate FloorIsLast(turns: nat -> Turn, tokens: seq<nat>, floor: nat) {
    tokens != [] && Auth(turns(|tokens| - 1).response) ==> floor == tokens[|tokens| - 1] + 1
  }

  /** A token no older than the floor leaves a rejected one behind. */
  lemma SendKeeps(turns: nat -> Turn, tokens: seq<nat>, floor: nat, token: nat)
    requires LeavesRejectedBehind(turns, tokens) && FloorIsLast(turns, tokens, floor) && floor <= token
    ensures LeavesRejectedBehind(turns, tokens + [token])
  {
  }
}
