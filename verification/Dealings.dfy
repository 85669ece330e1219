/**
  What can be said about a retried call from outside: what each response asks for,
  what each session() and invalidate() answered, and which of them decides the call.
*/
module Dealings {
  import opened Common
  import opened Errors
  import opened Session
  import opened SessionRuns

  datatype Response = Success | Failed(failure: Failure)

  /** What happens around one pass of the loop: other threads' calls before it and
      before the invalidation, what the outside does, the response and the jitter. */
  datatype Turn = Turn(
    before: seq<Op>, get: Env, response: Response, between: seq<Op>, renew: Env, jitter: real)

  predicate ValidTurn(t: Turn) {
    && (forall i :: 0 <= i < |t.before| ==> Renewing(t.before[i]))
    && (forall i :: 0 <= i < |t.between| ==> Renewing(t.between[i]))
    && 0.0 <= t.jitter < 1.0
  }

  ghost predicate AllValid(turns: nat -> Turn) {
    forall i: nat {:trigger ValidTurn(turns(i))} :: ValidTurn(turns(i))
  }

  lemma ValidAt(turns: nat -> Turn, i: nat)
    requires AllValid(turns)
    ensures ValidTurn(turns(i))
  {
  }

  datatype CallError = RequestFailed(failure: Failure) | SessionFailed(error: Error) | BackoffOverflow

  predicate IsAuth(f: Failure) {
    f.Xrpc? && f.error.IsAuth()
  }

  predicate Auth(r: Response) {
    r.Failed? && IsAuth(r.failure)
  }

  // ----- the responses ------------------------------------------------------

  /** One of the first `n` responses rejected the token. */
  predicate RejectedBefore(turns: nat -> Turn, n: nat) {
    n > 0 && (RejectedBefore(turns, n - 1) || Auth(turns(n - 1).response))
  }

  /** The retries used up before response `n`: every earlier request but one that was
      rejected. */
  function RetriesBefore(turns: nat -> Turn, n: nat): nat {
    if RejectedBefore(turns, n) then n - 1 else n
  }

  /** Response `n` ends the call: a success, a second rejection of the token, or a
      failure not worth retrying or after the last retry. */
  predicate Decides(turns: nat -> Turn, n: nat, maxRetries: nat) {
    match turns(n).response
    case Success => true
    case Failed(f) =>
      if IsAuth(f) then RejectedBefore(turns, n) else !Retryable(f) || RetriesBefore(turns, n) >= maxRetries
  }

  /** None of the first `n` responses does. */
  predicate NoneDecides(turns: nat -> Turn, n: nat, maxRetries: nat) {
    n == 0 || (NoneDecides(turns, n - 1, maxRetries) && !Decides(turns, n - 1, maxRetries))
  }

  lemma {:induction false} NoneOfTheFirst(turns: nat -> Turn, n: nat, maxRetries: nat, i: nat)
    requires NoneDecides(turns, n, maxRetries) && i < n
    ensures !Decides(turns, i, maxRetries)
  {
    if i < n - 1 {
      NoneOfTheFirst(turns, n - 1, maxRetries, i);
    }
  }

  function Verdict(r: Response): Result<(), CallError> {
    if r.Success? then Ok(()) else Err(RequestFailed(r.failure))
  }

  /** A retry whose backoff is past the float range. */
  predicate Overflows(turns: nat -> Turn, n: nat) {
    && RetriesBefore(turns, n) >= FLOAT_EXPONENTS
    && turns(n).response.Failed? && !Auth(turns(n).response) && !NamesWait(turns(n).response.failure)
  }

  predicate NamesWait(f: Failure) {
    f.Xrpc? && f.error.retryAfter.Some?
  }

  // ----- the session manager ------------------------------------------------

  /** One session() or invalidate(): what it found, what it left and its answer. */
  datatype Dealing = Dealing(found: World, op: Op, left: World, reply: Reply)

  /** What the manager was left as. */
  function Latest(w: World, log: seq<Dealing>): World {
    if log == [] then w else log[|log| - 1].left
  }

  /** The access tokens session() handed out, in order. */
  function Sent(log: seq<Dealing>): seq<nat> {
    if log == [] then []
    else
      var d := log[|log| - 1];
      Sent(log[..|log| - 1]) + if d.op.Use? && d.reply.Ok? then [d.reply.value.access] else []
  }

  function Invalidations(log: seq<Dealing>): nat {
    if log == [] then 0
    else Invalidations(log[..|log| - 1]) + if log[|log| - 1].op.Reject? then 1 else 0
  }

  predicate AllGranted(log: seq<Dealing>) {
    log == [] || (AllGranted(log[..|log| - 1]) && log[|log| - 1].reply.Ok?)
  }

  /** The next thing to ask of the manager, other threads having had their turn: a
      session for the next request, or the end of the token just rejected. */
  predicate Due(c: Config, w: World, turns: nat -> Turn, sent: seq<nat>, d: Dealing) {
    match d.op
    case Use(e) =>
      var turn := turns(|sent|);
      e == turn.get && d.found == Run(c, w, turn.before)
    case Reject(stale, e) =>
      && sent != []
      && var turn := turns(|sent| - 1);
      && Auth(turn.response) && e == turn.renew && stale == Some(sent[|sent| - 1])
      && d.found == Run(c, w, turn.between)
    case _ => false
  }

  /** The answers are the manager's. */
  predicate Genuine(c: Config, w: World, turns: nat -> Turn, log: seq<Dealing>) {
    log == []
    || var earlier, d := log[..|log| - 1], log[|log| - 1];
       && Genuine(c, w, turns, earlier)
       && Due(c, Latest(w, earlier), turns, Sent(earlier), d)
       && Step(c, d.found, d.op) == (d.left, Some(d.reply))
  }

  lemma LogAppends(c: Config, w: World, turns: nat -> Turn, log: seq<Dealing>, d: Dealing)
    requires Genuine(c, w, turns, log) && Due(c, Latest(w, log), turns, Sent(log), d)
    requires Step(c, d.found, d.op) == (d.left, Some(d.reply))
    ensures Genuine(c, w, turns, log + [d]) && Latest(w, log + [d]) == d.left
    ensures Sent(log + [d]) == Sent(log) + if d.op.Use? && d.reply.Ok? then [d.reply.value.access] else []
    ensures Invalidations(log + [d]) == Invalidations(log) + if d.op.Reject? then 1 else 0
  {
    assert (log + [d])[..|log|] == log;
  }

  // ----- what a call comes to -----------------------------------------------

  /** A refusal of the manager ends the call and is its result, and nothing else is;
      otherwise the first response that decides is, and every response before it led
      to another request. */
  predicate Outcome(turns: nat -> Turn, maxRetries: nat, log: seq<Dealing>, r: Result<(), CallError>) {
    && log != [] && AllGranted(log[..|log| - 1])
    && var last, n := log[|log| - 1].reply, |Sent(log)|;
    && (last.Err? ==> r == Err(SessionFailed(last.error)) && NoneDecides(turns, n, maxRetries))
    && (last.Ok? ==> n > 0 && NoneDecides(turns, n - 1, maxRetries)
                     && if Decides(turns, n - 1, maxRetries) then r == Verdict(turns(n - 1).response)
                        else r == Err(BackoffOverflow) && Overflows(turns, n - 1))
  }

  lemma SessionErrorIsTheManagers(turns: nat -> Turn, maxRetries: nat, log: seq<Dealing>, r: Result<(), CallError>,
                                  error: Error)
    requires Outcome(turns, maxRetries, log, r)
    ensures r == Err(SessionFailed(error)) <==> log[|log| - 1].reply == Err(error)
  {
  }

  /** If the manager serves every request and invalidation, the first response that
      decides is the last one waited for, and the result. */
  lemma FirstDecisionIsTheResult(turns: nat -> Turn, maxRetries: nat, log: seq<Dealing>, r: Result<(), CallError>,
                                 k: nat)
    requires Outcome(turns, maxRetries, log, r) && AllGranted(log)
    requires NoneDecides(turns, k, maxRetries) && Decides(turns, k, maxRetries)
    requires forall i :: 0 <= i < k ==> !Overflows(turns, i)
    ensures |Sent(log)| == k + 1 && r == Verdict(turns(k).response)
  {
    var n := |Sent(log)| - 1;
    if k < n {
      NoneOfTheFirst(turns, n, maxRetries, k);
    } else if n < k {
      NoneOfTheFirst(turns, k, maxRetries, n);
    }
  }

  /** A rejected token is no failure if the next one is accepted. */
  lemma RenewedThenAccepted(turns: nat -> Turn, maxRetries: nat, log: seq<Dealing>, r: Result<(), CallError>)
    requires Outcome(turns, maxRetries, log, r) && AllGranted(log)
    requires Auth(turns(0).response) && turns(1).response.Success?
    ensures |Sent(log)| == 2 && r == Ok(())
  {
    assert !RejectedBefore(turns, 0) && !Decides(turns, 0, maxRetries);
    assert NoneDecides(turns, 0, maxRetries) && NoneDecides(turns, 0 + 1, maxRetries);
    FirstDecisionIsTheResult(turns, maxRetries, log, r, 1);
  }
}
