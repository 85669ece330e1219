/**
  The two-thread publish protocol of bridge/bridge.py as a state machine: paho's
  network thread stores readings, raises `_pending_trigger` and sets `_wake`; the
  publisher thread runs `_run_interval` or `_run_on_message`; a third thread may
  call `stop`. Every read or write of a shared variable is a step of its own, and
  the steps of the threads interleave freely. Time is in microseconds; the wall
  and the monotonic clock advance together.
*/
module Protocol {
  import opened Common

  const SECOND: int := 1000000

  datatype Mode = Interval | OnMessage

  datatype Settings = Settings(
    mode: Mode, intervalSeconds: nat, alignToInterval: bool, minIntervalSeconds: nat, roundToSeconds: nat)

  /** The bound config.py puts on the interval (5..86400). */
  predicate WellFormed(c: Settings) {
    c.intervalSeconds >= 5
  }

  datatype MessagePc =
    | Receiving   // between messages, or inside collector.ingest
    | Marking     // readings stored and triggered, about to set _pending_trigger
    | Signalling  // flag set, about to call _wake.set()

  datatype StopPc = Running | Setting | Stopped

  datatype PublisherPc =
    | LoopTest                          // about to test _stopping at the loop head
    | ReadingFlag                       // about to read _pending_trigger
    | Measuring                         // about to compute the elapsed time
    | ClearingFlag                      // about to reset _pending_trigger
    | Scheduling                        // about to compute the interval timeout
    | Waiting(deadline: Option<int>)    // inside _wake.wait; None is no timeout
    | ClearingWake                      // about to call _wake.clear()
    | Retesting                         // interval mode tests _stopping again
    | Starting                          // about to read the wall clock
    | Collecting(moment: int)           // about to take the snapshot
    | Deciding(moment: int)             // building: may skip, fail, or commit
    | Writing                           // inside publisher.publish
    | Finished

  /** One observation handed over: the clock reading it is stamped from, and the
      value stored in _last_published_at. */
  datatype Handover = Handover(moment: int, committed: int)

  datatype State = State(
    now: int,
    pending: bool,
    wake: bool,
    stopping: bool,
    message: MessagePc,
    stopper: StopPc,
    publisher: PublisherPc,
    lastPublished: Option<int>,
    // Trigger messages whose readings are stored, and how many of those the
    // latest snapshot was taken after.
    stored: nat,
    covered: nat,
    log: seq<Handover>)

  datatype Step =
    | Tick(elapsed: nat)
    | Store | Mark | Signal
    | Stop | StopSignal
    | TestLoop | ReadFlag | Measure | ClearFlag | Schedule
    | WakeUp | ClearWake | Retest
    | ReadClock | Snapshot | Skip | Commit | FinishWrite

  function Initial(now: int): State {
    State(now, false, false, false, Receiving, Running, LoopTest, None, 0, 0, [])
  }

  // ----- time ---------------------------------------------------------------

  /** The first multiple of the interval after `t`. */
  function NextBoundary(c: Settings, t: int): int
    requires WellFormed(c)
  {
    (t / (c.intervalSeconds * SECOND) + 1) * (c.intervalSeconds * SECOND)
  }

  /** now + _seconds_until_next */
  function Deadline(c: Settings, now: int): int
    requires WellFormed(c)
  {
    if c.alignToInterval
    then now + (c.intervalSeconds * SECOND - now % (c.intervalSeconds * SECOND))
    else now + c.intervalSeconds * SECOND
  }

  /** elapsed >= minimum, where a missing last publish counts as infinitely long ago. */
  predicate Due(c: Settings, s: State) {
    s.lastPublished.None? || s.now - s.lastPublished.value >= c.minIntervalSeconds * SECOND
  }

  /** _observed_at_for with timestampSource "received". */
  function ObservedAt(c: Settings, moment: int): int {
    if c.roundToSeconds > 1
    then moment / (c.roundToSeconds * SECOND) * (c.roundToSeconds * SECOND)
    else moment
  }

  // ----- the transition function --------------------------------------------

  predicate Enabled(c: Settings, s: State, step: Step) {
    match step
    case Tick(_) => true
    case Store => s.message.Receiving?
    case Mark => s.message.Marking?
    case Signal => s.message.Signalling?
    case Stop => s.stopper.Running?
    case StopSignal => s.stopper.Setting?
    case TestLoop => s.publisher.LoopTest?
    case ReadFlag => s.publisher.ReadingFlag?
    case Measure => s.publisher.Measuring?
    case ClearFlag => s.publisher.ClearingFlag?
    case Schedule => s.publisher.Scheduling?
    case WakeUp => s.publisher.Waiting? &&
                   (s.wake || (s.publisher.deadline.Some? && s.publisher.deadline.value <= s.now))
    case ClearWake => s.publisher.ClearingWake?
    case Retest => s.publisher.Retesting?
    case ReadClock => s.publisher.Starting?
    case Snapshot => s.publisher.Collecting?
    case Skip => s.publisher.Deciding?
    case Commit => s.publisher.Deciding?
    case FinishWrite => s.publisher.Writing?
  }

  function Do(c: Settings, s: State, step: Step): State
    requires WellFormed(c) && Enabled(c, s, step)
  {
    match step
    case Tick(d) => s.(now := s.now + d)
    case Store => s.(stored := s.stored + 1, message := if c.mode.OnMessage? then Marking else Receiving)
    case Mark => s.(pending := true, message := Signalling)
    case Signal => s.(wake := true, message := Receiving)
    case Stop => s.(stopping := true, stopper := Setting)
    case StopSignal => s.(wake := true, stopper := Stopped)
    case TestLoop =>
      s.(publisher := if s.stopping then Finished else if c.mode.Interval? then Scheduling else ReadingFlag)
    case ReadFlag => s.(publisher := if s.pending then Measuring else Waiting(None))
    case Measure =>
      s.(publisher := if Due(c, s) then ClearingFlag
                      else Waiting(Some(s.lastPublished.value + c.minIntervalSeconds * SECOND)))
    case ClearFlag => s.(pending := false, publisher := Starting)
    case Schedule => s.(publisher := Waiting(Some(Deadline(c, s.now))))
    case WakeUp => s.(publisher := ClearingWake)
    case ClearWake => s.(wake := false, publisher := if c.mode.Interval? then Retesting else LoopTest)
    case Retest => s.(publisher := if s.stopping then Finished else Starting)
    case ReadClock => s.(publisher := Collecting(s.now))
    case Snapshot => s.(covered := s.stored, publisher := Deciding(s.publisher.moment))
    case Skip => s.(publisher := LoopTest)
    case Commit =>
      s.(lastPublished := Some(s.now), publisher := Writing,
         log := s.log + [Handover(s.publisher.moment, s.now)])
    case FinishWrite => s.(publisher := LoopTest)
  }

  /** The state an interleaving reaches, if each of its steps is possible. */
  function Run(c: Settings, s: State, steps: seq<Step>): Option<State>
    requires WellFormed(c)
    decreases |steps|
  {
    if steps == [] then Some(s)
    else if Enabled(c, s, steps[0]) then Run(c, Do(c, s, steps[0]), steps[1..])
    else None
  }

  /** Running two stretches is running one and then the other. */
  lemma {:induction false} RunAppend(c: Settings, s: State, a: seq<Step>, b: seq<Step>)
    requires WellFormed(c) && Run(c, s, a).Some?
    ensures Run(c, s, a + b) == Run(c, Run(c, s, a).value, b)
    decreases |a|
  {
    if a == [] {
      assert a + b == b;
    } else {
      assert (a + b)[1..] == a[1..] + b;
      RunAppend(c, Do(c, s, a[0]), a[1..], b);
    }
  }

  // ----- the invariant ------------------------------------------------------

  /** A trigger whose readings are stored is covered by a snapshot, or still
      pending, or in the hands of a thread between two of its steps. */
  predicate NoLostTrigger(c: Settings, s: State) {
    c.mode.OnMessage? && s.covered < s.stored ==>
      s.pending || s.message.Marking? || s.publisher.Starting? || s.publisher.Collecting?
  }

  /** The publisher never sleeps without a timeout on a pending trigger, nor at all
      on a stop request, unless it has been or is about to be woken. */
  predicate NoLostWakeup(c: Settings, s: State) {
    && (s.publisher == Waiting(None) && s.pending ==> s.wake || s.message.Signalling?)
    && (s.stopping && s.publisher.Waiting? ==> s.wake || s.stopper.Setting?)
  }

  /** The earliest moment a publish may follow one recorded at `last`. */
  function Earliest(c: Settings, last: int): int
    requires WellFormed(c)
  {
    if c.mode.OnMessage? then last + c.minIntervalSeconds * SECOND
    else if c.alignToInterval then NextBoundary(c, last)
    else last + c.intervalSeconds * SECOND
  }

  predicate Spaced(c: Settings, last: Option<int>, t: int)
    requires WellFormed(c)
  {
    last.None? || Earliest(c, last.value) <= t
  }

  /** The throttle: each hand-over keeps its distance from the one before. */
  predicate Throttled(c: Settings, log: seq<Handover>)
    requires WellFormed(c)
  {
    && (forall i :: 0 <= i < |log| ==> log[i].moment <= log[i].committed)
    && (forall i :: 0 < i < |log| ==> Earliest(c, log[i - 1].committed) <= log[i].moment)
  }

  predicate PublisherOnTime(c: Settings, s: State)
    requires WellFormed(c)
  {
    match s.publisher
    case Waiting(Some(d)) => c.mode.Interval? ==> Spaced(c, s.lastPublished, d)
    case ClearingWake => c.mode.Interval? ==> s.stopping || Spaced(c, s.lastPublished, s.now)
    case Retesting => s.stopping || Spaced(c, s.lastPublished, s.now)
    case ClearingFlag => Spaced(c, s.lastPublished, s.now)
    case Starting => Spaced(c, s.lastPublished, s.now)
    case Collecting(m) => Spaced(c, s.lastPublished, m) && m <= s.now
    case Deciding(m) => Spaced(c, s.lastPublished, m) && m <= s.now
    case _ => true
  }

  predicate Consistent(c: Settings, s: State) {
    && s.covered <= s.stored
    && (s.lastPublished.Some? <==> s.log != [])
    && (s.log != [] ==> s.lastPublished == Some(s.log[|s.log| - 1].committed))
    && (s.lastPublished.Some? ==> s.lastPublished.value <= s.now)
    && (s.stopper.Running? <==> !s.stopping)
    && (s.publisher.Scheduling? || s.publisher.Retesting? ==> c.mode.Interval?)
    && (s.publisher.ReadingFlag? || s.publisher.Measuring? || s.publisher.ClearingFlag? ==> c.mode.OnMessage?)
    && (s.publisher == Waiting(None) ==> c.mode.OnMessage?)
    && (c.mode.Interval? ==> s.message.Receiving? && !s.pending && (s.wake ==> s.stopping))
  }

  predicate Invariant(c: Settings, s: State)
    requires WellFormed(c)
  {
    && Consistent(c, s)
    && NoLostTrigger(c, s)
    && NoLostWakeup(c, s)
    && StopIsSeen(s)
    && PublisherOnTime(c, s)
    && Throttled(c, s.log)
    && (s.publisher.Waiting? && s.publisher.deadline.Some? && c.mode.OnMessage? ==>
          s.lastPublished.Some? && s.publisher.deadline.value == s.lastPublished.value + c.minIntervalSeconds * SECOND)
  }

  /** Away from the points that re-test `_stopping` or clear the event, a stop
      request leaves the event set. */
  predicate StopIsSeen(s: State) {
    (s.stopping && !s.publisher.LoopTest? && !s.publisher.ClearingWake?
     && !s.publisher.Retesting? && !s.publisher.Finished?)
    ==> (s.wake || s.stopper.Setting?)
  }

  // ----- preservation -------------------------------------------------------

  lemma NextBoundaryMonotone(c: Settings, t: int, t': int)
    requires WellFormed(c) && t <= t'
    ensures t < NextBoundary(c, t) <= NextBoundary(c, t')
    ensures Deadline(c.(alignToInterval := true), t) == NextBoundary(c, t)
  {
    var i := c.intervalSeconds * SECOND;
    Quotients(t, t', i);
  }

  lemma Quotients(t: int, t': int, i: int)
    requires i > 0 && t <= t'
    ensures t / i <= t' / i && t == t / i * i + t % i && t / i * i <= t < (t / i + 1) * i
    ensures (t / i + 1) * i == t / i * i + i && (t / i + 1) * i <= (t' / i + 1) * i
  {
    if t / i > t' / i { Scale(t' / i + 1, t / i, i); }
    Scale(t / i, t' / i, i);
  }

  lemma Scale(a: int, b: int, i: int)
    requires a <= b && i > 0
    ensures a * i <= b * i
  {
  }

  lemma EarliestMonotone(c: Settings, last: int, later: int)
    requires WellFormed(c) && last <= later
    ensures Earliest(c, last) <= Earliest(c, later)
  {
    NextBoundaryMonotone(c, last, later);
  }

  lemma DeadlineIsSpaced(c: Settings, s: State)
    requires WellFormed(c) && Consistent(c, s) && c.mode.Interval?
    ensures Spaced(c, s.lastPublished, Deadline(c, s.now))
  {
    NextBoundaryMonotone(c, s.now, s.now);
    if s.lastPublished.Some? { EarliestMonotone(c, s.lastPublished.value, s.now); }
  }

  /** Steps of the publisher thread, as against the clock and the other threads. */
  predicate PublisherStep(step: Step) {
    !step.Tick? && !step.Store? && !step.Mark? && !step.Signal? && !step.Stop? && !step.StopSignal?
  }

  lemma OtherStepKeepsInvariant(c: Settings, s: State, step: Step)
    requires WellFormed(c) && Invariant(c, s) && Enabled(c, s, step) && !PublisherStep(step)
    ensures Invariant(c, Do(c, s, step))
  {
  }

  lemma CommitKeepsInvariant(c: Settings, s: State)
    requires WellFormed(c) && Invariant(c, s) && Enabled(c, s, Commit)
    ensures Invariant(c, Do(c, s, Commit))
  {
  }

  lemma PublisherStepKeepsInvariant(c: Settings, s: State, step: Step)
    requires WellFormed(c) && Invariant(c, s) && Enabled(c, s, step) && PublisherStep(step) && !step.Commit?
    ensures Invariant(c, Do(c, s, step))
  {
    if step.Schedule? { DeadlineIsSpaced(c, s); }
  }

  lemma StepKeepsInvariant(c: Settings, s: State, step: Step)
    requires WellFormed(c) && Invariant(c, s) && Enabled(c, s, step)
    ensures Invariant(c, Do(c, s, step))
  {
    if step.Commit? {
      CommitKeepsInvariant(c, s);
    } else if PublisherStep(step) {
      PublisherStepKeepsInvariant(c, s, step);
    } else {
      OtherStepKeepsInvariant(c, s, step);
    }
  }

  lemma {:induction false} RunKeepsInvariant(c: Settings, s: State, steps: seq<Step>)
    requires WellFormed(c) && Invariant(c, s) && Run(c, s, steps).Some?
    ensures Invariant(c, Run(c, s, steps).value)
    decreases |steps|
  {
    if steps == [] {
    } else {
      StepKeepsInvariant(c, s, steps[0]);
      RunKeepsInvariant(c, Do(c, s, steps[0]), steps[1..]);
    }
  }

  /** Over every interleaving from the start: no trigger and no wakeup is lost, a
      stop request is seen, and the throttle holds. */
  lemma NothingIsLost(c: Settings, now: int, steps: seq<Step>)
    requires WellFormed(c) && Run(c, Initial(now), steps).Some?
    ensures var s := Run(c, Initial(now), steps).value;
      NoLostTrigger(c, s) && NoLostWakeup(c, s) && StopIsSeen(s) && Throttled(c, s.log)
  {
    RunKeepsInvariant(c, Initial(now), steps);
  }

  // ----- progress -----------------------------------------------------------

  function Waited(steps: seq<Step>): (d: nat) {
    if steps == [] then 0 else (if steps[0].Tick? then steps[0].elapsed else 0) + Waited(steps[1..])
  }

  /** How many publisher steps separate an owed snapshot from being taken. */
  function Owing(c: Settings, s: State): nat {
    match s.publisher
    case Collecting(_) => 1
    case Starting => 2
    case ClearingFlag => 3
    case Measuring => if Due(c, s) then 4 else if s.wake then 15 else 10
    case ReadingFlag => if Due(c, s) then 5 else if s.wake then 16 else 11
    case LoopTest => if Due(c, s) then 6 else if s.wake then 17 else 12
    case ClearingWake => if Due(c, s) then 7 else 13
    case Waiting(_) => if Due(c, s) then 8 else if s.wake then 14 else 9
    case Writing => 18
    case Deciding(_) => 19
    case _ => 20
  }

  predicate Owed(c: Settings, s: State)
    requires WellFormed(c)
  {
    && Invariant(c, s) && c.mode.OnMessage? && s.covered < s.stored
    && s.message.Receiving? && !s.stopping && !s.publisher.Finished?
  }

  /** While a trigger is owed, whatever the publisher does brings its snapshot nearer. */
  lemma PublisherStepServes(c: Settings, s: State, step: Step)
    requires WellFormed(c) && Owed(c, s) && PublisherStep(step) && Enabled(c, s, step)
    ensures var s' := Do(c, s, step);
      if step.Snapshot? then s'.covered == s'.stored else Owed(c, s') && Owing(c, s') < Owing(c, s)
  {
    StepKeepsInvariant(c, s, step);
  }

  /** The publisher is never stuck while a trigger is owed: it can step, or it is
      waiting out what is left of the minimum interval. */
  lemma PublisherCanStep(c: Settings, s: State) returns (step: Step)
    requires WellFormed(c) && Owed(c, s)
    ensures Enabled(c, s, step)
    ensures PublisherStep(step) ||
      (step.Tick? && s.publisher.Waiting? && !Due(c, s) && !s.wake && s.lastPublished.Some?
       && s.now + step.elapsed == s.lastPublished.value + c.minIntervalSeconds * SECOND)
  {
    match s.publisher
    case LoopTest => step := TestLoop;
    case ReadingFlag => step := ReadFlag;
    case Measuring => step := Measure;
    case ClearingFlag => step := ClearFlag;
    case Starting => step := ReadClock;
    case Collecting(_) => step := Snapshot;
    case Deciding(_) => step := Skip;
    case Writing => step := FinishWrite;
    case ClearingWake => step := ClearWake;
    case Waiting(deadline) =>
      if s.wake || deadline.value <= s.now {
        step := WakeUp;
      } else {
        step := Tick(deadline.value - s.now);
      }
  }

  /** From every reachable state that owes a snapshot with the message thread back
      from its handover, the publisher alone takes it within 20 steps, waiting at
      most the minimum interval. */
  lemma {:induction false} ReceivedIsServed(c: Settings, s: State) returns (steps: seq<Step>)
    requires WellFormed(c) && Owed(c, s)
    ensures |steps| <= Owing(c, s) <= 20
    ensures forall i :: 0 <= i < |steps| ==> PublisherStep(steps[i]) || steps[i].Tick?
    ensures Waited(steps) <= if Due(c, s) && !s.publisher.Deciding? && !s.publisher.Writing? then 0
                             else c.minIntervalSeconds * SECOND
    ensures Run(c, s, steps).Some?
    ensures Run(c, s, steps).value.covered == Run(c, s, steps).value.stored == s.stored
    decreases Owing(c, s)
  {
    var step := PublisherCanStep(c, s);
    var s' := Do(c, s, step);
    if step.Tick? {
      StepKeepsInvariant(c, s, step);
    } else {
      PublisherStepServes(c, s, step);
    }
    if step.Snapshot? {
      steps := [step];
    } else {
      var rest := ReceivedIsServed(c, s');
      steps := [step] + rest;
    }
  }

  /** A snapshot is owed; the message thread may be anywhere in its handover. */
  predicate Stored(c: Settings, s: State)
    requires WellFormed(c)
  {
    Invariant(c, s) && c.mode.OnMessage? && s.covered < s.stored && !s.stopping && !s.publisher.Finished?
  }

  /** What the message thread still has to do. */
  function Marks(s: State): seq<Step> {
    match s.message
    case Receiving => []
    case Marking => [Mark, Signal]
    case Signalling => [Signal]
  }

  lemma HandoverCompletes(c: Settings, s: State)
    requires WellFormed(c) && Stored(c, s)
    ensures var t := Run(c, s, Marks(s)); t.Some? && Owed(c, t.value) && t.value.stored == s.stored
  {
    if s.message.Marking? {
      var m := Do(c, s, Mark);
      StepKeepsInvariant(c, s, Mark);
      StepKeepsInvariant(c, m, Signal);
      assert [Mark, Signal][1..] == [Signal];
      assert Run(c, m, [Signal]) == Run(c, Do(c, m, Signal), []);
    } else if s.message.Signalling? {
      StepKeepsInvariant(c, s, Signal);
      assert Run(c, s, [Signal]) == Run(c, Do(c, s, Signal), []);
    }
  }

  /** From every reachable state that owes a snapshot, finishing the handover and at
      most 20 steps of the publisher and the clock take it. */
  lemma TriggerIsServed(c: Settings, s: State) returns (rest: seq<Step>)
    requires WellFormed(c) && Stored(c, s)
    ensures |rest| <= 20 && Waited(rest) <= c.minIntervalSeconds * SECOND
    ensures forall i :: 0 <= i < |rest| ==> PublisherStep(rest[i]) || rest[i].Tick?
    ensures var t := Run(c, s, Marks(s) + rest);
      t.Some? && t.value.covered == t.value.stored == s.stored
  {
    HandoverCompletes(c, s);
    rest := ReceivedIsServed(c, Run(c, s, Marks(s)).value);
    RunAppend(c, s, Marks(s), rest);
  }

  // ----- progress under interference ----------------------------------------

  /** The first `n` triggers have been handed over, and not all are in a snapshot:
      whatever the message thread does next, they no longer depend on it. */
  predicate Handed(c: Settings, s: State, n: nat)
    requires WellFormed(c)
  {
    && Invariant(c, s) && c.mode.OnMessage? && s.covered < n <= s.stored
    && !s.stopping && !s.publisher.Finished?
    && (s.pending || s.publisher.Starting? || s.publisher.Collecting?)
    && (s.publisher == Waiting(None) ==> s.wake)
  }

  predicate Taken(c: Settings, s: State, n: nat)
    requires WellFormed(c)
  {
    Invariant(c, s) && n <= s.covered
  }

  /** Once the message thread is back, every trigger it stored has been handed over. */
  lemma StoredIsHanded(c: Settings, s: State)
    requires WellFormed(c) && Owed(c, s)
    ensures Handed(c, s, s.stored)
  {
  }

  predicate NoStop(steps: seq<Step>) {
    forall i :: 0 <= i < |steps| ==> !steps[i].Stop?
  }

  function PublisherSteps(steps: seq<Step>): nat {
    if steps == [] then 0 else (if PublisherStep(steps[0]) then 1 else 0) + PublisherSteps(steps[1..])
  }

  /** Publisher steps left of the round that is already past its snapshot. */
  function Leftover(s: State): nat {
    if s.publisher.Deciding? then 2 else if s.publisher.Writing? then 1 else 0
  }

  /** The clock reading after which a trigger need not wait any longer. */
  predicate Elapsed(c: Settings, s: State) {
    Due(c, s) && Leftover(s) == 0
  }

  /** One step of any thread: the handed-over triggers are taken or stay handed over,
      the old round gets no longer, and once the interval has elapsed the snapshot
      gets nearer with every publisher step and no farther with any other. */
  lemma HandedStep(c: Settings, s: State, step: Step, n: nat)
    requires WellFormed(c) && Handed(c, s, n) && Enabled(c, s, step) && !step.Stop?
    ensures var t := Do(c, s, step);
      Taken(c, t, n) || (
        && Handed(c, t, n)
        && Leftover(t) <= Leftover(s)
        && (PublisherStep(step) && Leftover(s) > 0 ==> Leftover(t) < Leftover(s))
        && (Leftover(s) == 0 ==> t.lastPublished == s.lastPublished)
        && t.now == s.now + (if step.Tick? then step.elapsed else 0)
        && (Elapsed(c, s) ==> Elapsed(c, t) && Owing(c, t) <= Owing(c, s) - if PublisherStep(step) then 1 else 0))
  {
    StepKeepsInvariant(c, s, step);
  }

  lemma {:induction false} TakenStaysTaken(c: Settings, s: State, steps: seq<Step>, n: nat)
    requires WellFormed(c) && Taken(c, s, n) && Run(c, s, steps).Some?
    ensures Taken(c, Run(c, s, steps).value, n)
    decreases |steps|
  {
    if steps == [] {
    } else {
      StepKeepsInvariant(c, s, steps[0]);
      TakenStaysTaken(c, Do(c, s, steps[0]), steps[1..], n);
    }
  }

  /** What a whole run without a stop request leaves of a handed-over trigger. */
  lemma {:induction false} HandedRun(c: Settings, s: State, steps: seq<Step>, n: nat)
    requires WellFormed(c) && Handed(c, s, n) && NoStop(steps) && Run(c, s, steps).Some?
    ensures var t := Run(c, s, steps).value;
      Taken(c, t, n) || (
        && Handed(c, t, n)
        && (PublisherSteps(steps) >= Leftover(s) ==> Leftover(t) == 0)
        && Leftover(t) <= Leftover(s)
        && (Leftover(s) == 0 ==> t.lastPublished == s.lastPublished)
        && t.now == s.now + Waited(steps)
        && (Elapsed(c, s) ==> Elapsed(c, t) && Owing(c, t) + PublisherSteps(steps) <= Owing(c, s)))
    decreases |steps|
  {
    if steps == [] {
    } else {
      var t := Do(c, s, steps[0]);
      HandedStep(c, s, steps[0], n);
      if Taken(c, t, n) {
        TakenStaysTaken(c, t, steps[1..], n);
      } else {
        HandedRun(c, t, steps[1..], n);
      }
    }
  }

  /** Every interleaving serves every trigger: once the publisher has finished the
      round it may be in, the minimum interval has passed, and it has made eight more
      steps, a snapshot has been taken after the trigger's readings were stored,
      however many messages and wakeups came in between. */
  lemma EveryInterleavingServes(c: Settings, s: State, finish: seq<Step>, wait: seq<Step>, serve: seq<Step>, n: nat)
    requires WellFormed(c) && Handed(c, s, n)
    requires NoStop(finish) && NoStop(wait) && NoStop(serve) && Run(c, s, finish + (wait + serve)).Some?
    requires PublisherSteps(finish) >= 2 && Waited(wait) >= c.minIntervalSeconds * SECOND && PublisherSteps(serve) >= 8
    ensures Run(c, s, finish + (wait + serve)).value.covered >= n
  {
    var t := HandedStretch(c, s, finish, wait + serve, n);
    if Taken(c, t, n) {
      TakenStaysTaken(c, t, wait + serve, n);
    } else {
      ElapsedServes(c, t, wait, serve, n);
    }
  }

  lemma ElapsedServes(c: Settings, s: State, wait: seq<Step>, serve: seq<Step>, n: nat)
    requires WellFormed(c) && Handed(c, s, n) && Leftover(s) == 0
    requires NoStop(wait) && NoStop(serve) && Run(c, s, wait + serve).Some?
    requires Waited(wait) >= c.minIntervalSeconds * SECOND && PublisherSteps(serve) >= 8
    ensures Run(c, s, wait + serve).value.covered >= n
  {
    var t := HandedStretch(c, s, wait, serve, n);
    if Taken(c, t, n) {
      TakenStaysTaken(c, t, serve, n);
    } else {
      HandedRun(c, t, serve, n);
    }
  }

  /** The state between two stretches of a run. */
  lemma HandedStretch(c: Settings, s: State, a: seq<Step>, b: seq<Step>, n: nat) returns (t: State)
    requires WellFormed(c) && Handed(c, s, n) && NoStop(a) && Run(c, s, a + b).Some?
    ensures Run(c, s, a) == Some(t) && Run(c, s, a + b) == Run(c, t, b)
    ensures Taken(c, t, n) || (
        && Handed(c, t, n)
        && (PublisherSteps(a) >= 2 ==> Leftover(t) == 0)
        && (Leftover(s) == 0 ==> Leftover(t) == 0 && t.lastPublished == s.lastPublished)
        && t.now == s.now + Waited(a))
  {
    RunPrefix(c, s, a, b);
    t := Run(c, s, a).value;
    RunAppend(c, s, a, b);
    HandedRun(c, s, a, n);
  }

  lemma {:induction false} RunPrefix(c: Settings, s: State, a: seq<Step>, b: seq<Step>)
    requires WellFormed(c) && Run(c, s, a + b).Some?
    ensures Run(c, s, a).Some?
    decreases |a|
  {
    if a == [] {
    } else {
      assert (a + b)[1..] == a[1..] + b;
      RunPrefix(c, Do(c, s, a[0]), a[1..], b);
    }
  }

  /** And the publisher always has one of those eight steps to make. */
  lemma ElapsedPublisherCanStep(c: Settings, s: State, n: nat) returns (step: Step)
    requires WellFormed(c) && Handed(c, s, n) && Elapsed(c, s)
    ensures PublisherStep(step) && Enabled(c, s, step) && 1 <= Owing(c, s) <= 8
  {
    match s.publisher
    case LoopTest => step := TestLoop;
    case ReadingFlag => step := ReadFlag;
    case Measuring => step := Measure;
    case ClearingFlag => step := ClearFlag;
    case Starting => step := ReadClock;
    case Collecting(_) => step := Snapshot;
    case ClearingWake => step := ClearWake;
    case Waiting(_) => step := WakeUp;
  }

  /** Publisher steps left before a stop request, once signalled, ends the thread. */
  function Stopping(s: State): nat {
    match s.publisher
    case Finished => 0
    case LoopTest => 1
    case Retesting => 1
    case ClearingWake => 2
    case Waiting(_) => 3
    case Measuring => 9
    case Scheduling => 4
    case ReadingFlag => 10
    case Writing => 2
    case Deciding(_) => 5
    case Collecting(_) => 6
    case Starting => 7
    case ClearingFlag => 8
  }

  /** After stop() every publisher step brings the end of its thread nearer, it can
      always take one without waiting, and no new wait is entered unwoken. */
  lemma StopIsServed(c: Settings, s: State, step: Step)
    requires WellFormed(c) && Invariant(c, s) && s.stopper.Stopped?
    ensures PublisherStep(step) && Enabled(c, s, step) ==>
      Do(c, s, step).stopper.Stopped? && Stopping(Do(c, s, step)) < Stopping(s) <= 10
    ensures !s.publisher.Finished? ==> exists next :: PublisherStep(next) && Enabled(c, s, next)
  {
    if !s.publisher.Finished? {
      var next := match s.publisher
        case LoopTest => TestLoop
        case ReadingFlag => ReadFlag
        case Measuring => Measure
        case ClearingFlag => ClearFlag
        case Scheduling => Schedule
        case Waiting(_) => WakeUp
        case ClearingWake => ClearWake
        case Retesting => Retest
        case Starting => ReadClock
        case Collecting(_) => Snapshot
        case Deciding(_) => Skip
        case Writing => FinishWrite;
      assert PublisherStep(next) && Enabled(c, s, next);
    }
  }
}
