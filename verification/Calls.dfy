/**
  Where the publisher's replies come from: put_record of atproto/client.py is one
  session() and one retried call, and each way these can end is one reply.
*/
module Calls {
  import opened Common
  import opened Errors
  import opened Session
  import opened SessionRuns
  import opened Dealings
  import opened Client
  import Publisher

  /** How `_write` sees an exception of the session manager: request failures and
      OSErrors are caught, a SessionError and an OverflowError are not. */
  function ReplyOfSession(error: Error, applied: bool): Publisher.Reply {
    match error
    case Request(Xrpc(e)) => Publisher.Refused(e, applied)
    case Request(Network) => Publisher.Unreachable(applied)
    case StoreFailed => Publisher.Unreachable(applied)
    case BadSession => Publisher.Escapes(applied)
    case Overflow => Publisher.Escapes(applied)
  }

  function ReplyOf(r: Result<(), CallError>, applied: bool): Publisher.Reply {
    match r
    case Ok(_) => Publisher.Accepted
    case Err(RequestFailed(Xrpc(e))) => Publisher.Refused(e, applied)
    case Err(RequestFailed(Network)) => Publisher.Unreachable(applied)
    case Err(SessionFailed(error)) => ReplyOfSession(error, applied)
    case Err(BackoffOverflow) => Publisher.Escapes(applied)
  }

  /** The request failure a reply reports, if it reports one. */
  function FailureOf(reply: Publisher.Reply): Option<Failure> {
    match reply
    case Refused(e, _) => Some(Xrpc(e))
    case Unreachable(_) => Some(Network)
    case _ => None
  }

  /** What a put_record call came to: its reply, the tokens of the requests sent, and
      the exception of the session manager or the backoff, if one ended it. */
  datatype Put = Put(reply: Publisher.Reply, tokens: seq<nat>, session: Option<Error>, overflow: bool)

  /** The manager's last answer to a put_record call: `first` to its own session(),
      the others to those of the retried call. */
  function LastAnswer(first: Dealing, log: seq<Dealing>): Reply {
    if log == [] then first.reply else log[|log| - 1].reply
  }

  /** How an exception of the manager reaches `_write`. */
  predicate Reports(reply: Publisher.Reply, error: Error) {
    match error
    case Request(f) => FailureOf(reply) == Some(f)
    case StoreFailed => reply.Unreachable?
    case _ => reply.Escapes?
  }

  /** How the response that decided the call reaches `_write`. */
  predicate Delivers(reply: Publisher.Reply, response: Response) {
    if response.Success? then reply.Accepted? else FailureOf(reply) == Some(response.failure)
  }

  /** What a put_record call comes to, given what the manager answered. */
  ghost predicate Ended(turns: nat -> Turn, maxRetries: nat, first: Dealing, log: seq<Dealing>, p: Put) {
    var last, n := LastAnswer(first, log), |p.tokens|;
    && p.tokens == Sent(log)
    // The manager's last answer is the exception, if it is one, and nothing else is.
    && (last.Err? ==>
          && p.session == Some(last.error) && Reports(p.reply, last.error) && !p.overflow
          && NoneDecides(turns, n, maxRetries))
    // Otherwise the first response that decides is what `_write` sees.
    && (last.Ok? ==>
          && p.session == None && n > 0 && NoneDecides(turns, n - 1, maxRetries)
          && if Decides(turns, n - 1, maxRetries) then Delivers(p.reply, turns(n - 1).response) && !p.overflow
             else p.reply.Escapes? && p.overflow && Overflows(turns, n - 1))
    // Nothing is applied unless a request was sent.
    && (n == 0 ==> !Publisher.Applied(p.reply))
  }

  /** The call's result as `_write` sees it; `landed` says whether any failed request
      was applied all the same. */
  function PutOf(r: Result<(), CallError>, tokens: seq<nat>, landed: bool): Put {
    Put(ReplyOf(r, landed && tokens != []), tokens,
        if r.Err? && r.error.SessionFailed? then Some(r.error.error) else None,
        r.Err? && r.error.BackoffOverflow?)
  }

  /** No session to begin with: nothing is sent. */
  function Refused(error: Error): Put {
    Put(ReplyOfSession(error, false), [], Some(error), false)
  }

  lemma RefusalEnds(turns: nat -> Turn, maxRetries: nat, first: Dealing)
    requires first.reply.Err?
    ensures Ended(turns, maxRetries, first, [], Refused(first.reply.error))
  {
  }

  lemma OutcomeEnds(turns: nat -> Turn, maxRetries: nat, first: Dealing, log: seq<Dealing>,
                    r: Result<(), CallError>, landed: bool)
    requires Outcome(turns, maxRetries, log, r)
    ensures Ended(turns, maxRetries, first, log, PutOf(r, Sent(log), landed))
  {
  }

  /** What any end of a put_record call keeps to. */
  ghost predicate Bounded(client: AtpClient, turns: nat -> Turn, p: Put) {
    // At most one request more than the retries allow, and one for a renewed token.
    && |p.tokens| <= client.maxRetries + 2 && LeavesRejectedBehind(turns, p.tokens)
    && (p.overflow ==> client.maxRetries > FLOAT_EXPONENTS)
  }

  method PutRecord(client: AtpClient, e: Env, turns: nat -> Turn, landed: bool)
    returns (p: Put, ghost first: Dealing, ghost log: seq<Dealing>)
    requires client.Valid() && Invariant(client.session.View()) && AllValid(turns)
    modifies client.session, client.session.outside
    ensures Invariant(client.session.View())
    ensures first.found == old(client.session.View()) && first.op == Use(e)
    ensures (first.left, first.reply) == GetSession(client.session.c, first.found, e)
    ensures client.Logged(first.left, turns, log)
    ensures Ended(turns, client.maxRetries, first, log, p) && Bounded(client, turns, p)
  {
    ghost var found := client.session.View();
    var got := client.Acquire(e, 0);
    first := Dealing(found, Use(e), client.session.View(), got);
    if got.Err? {
      RefusalEnds(turns, client.maxRetries, first);
      p, log := Refused(got.error), [];
    } else {
      p, log := Send(client, turns, landed, first);
    }
  }

  /** The call itself, once there is a session. */
  method Send(client: AtpClient, turns: nat -> Turn, landed: bool, ghost first: Dealing)
    returns (p: Put, ghost log: seq<Dealing>)
    requires client.Valid() && Invariant(client.session.View()) && AllValid(turns)
    modifies client.session, client.session.outside
    ensures Invariant(client.session.View())
    ensures client.Logged(old(client.session.View()), turns, log)
    ensures Ended(turns, client.maxRetries, first, log, p) && Bounded(client, turns, p)
  {
    var r, tokens, slept;
    r, tokens, slept, log := client.Call(turns);
    OutcomeEnds(turns, client.maxRetries, first, log, r, landed);
    p := PutOf(r, tokens, landed);
  }

  /** A record is queued for another try only after all retries or a token refused
      twice, and given up only on a final refusal, unless no session could be had. */
  lemma WhatARetryMeans(turns: nat -> Turn, n: nat, maxRetries: nat, reply: Publisher.Reply)
    requires Decides(turns, n, maxRetries) && Delivers(reply, turns(n).response)
    ensures match Publisher.Classify(reply)
      case Written => turns(n).response.Success?
      case Retry =>
        if Auth(turns(n).response) then RejectedBefore(turns, n) else RetriesBefore(turns, n) >= maxRetries
      case Dropped => reply.Refused? && !reply.error.IsRetryable() && !reply.error.IsAuth()
      case Raised => false
  {
  }
}
