/**
  Progress of the publish loop in interval mode: however the threads interleave, the
  publisher takes a snapshot at least every nine of its own steps, and nothing keeps
  it from a step for longer than an interval.
*/
module Intervals {
  import opened Protocol

  /** A sleep ends at most an interval from now. */
  predicate WakesInTime(c: Settings, s: State) {
    s.publisher.Waiting? && s.publisher.deadline.Some? ==>
      s.publisher.deadline.value <= s.now + c.intervalSeconds * SECOND
  }

  /** The loop of interval mode, while nobody has asked it to stop. */
  predicate Looping(c: Settings, s: State)
    requires WellFormed(c)
  {
    Invariant(c, s) && c.mode.Interval? && !s.stopping && !s.publisher.Finished? && WakesInTime(c, s)
  }

  lemma StartsLooping(c: Settings, now: int)
    requires WellFormed(c) && c.mode.Interval?
    ensures Looping(c, Initial(now))
  {
  }

  lemma DeadlineIsNear(c: Settings, now: int)
    requires WellFormed(c)
    ensures now < Deadline(c, now) <= now + c.intervalSeconds * SECOND
  {
  }

  /** How many publisher steps separate the loop from its next snapshot. */
  function Ahead(s: State): nat {
    match s.publisher
    case Deciding(_) => 9
    case Writing => 8
    case LoopTest => 7
    case Scheduling => 6
    case Waiting(_) => 5
    case ClearingWake => 4
    case Retesting => 3
    case Starting => 2
    case _ => 1
  }

  /** Every publisher step but the snapshot itself brings the snapshot nearer, and no
      other step takes it farther away. */
  lemma StepLoops(c: Settings, s: State, step: Step)
    requires WellFormed(c) && Looping(c, s) && Enabled(c, s, step) && !step.Stop?
    ensures var t := Do(c, s, step);
      && Looping(c, t) && t.now == s.now + (if step.Tick? then step.elapsed else 0)
      && (!step.Snapshot? ==> Ahead(t) <= Ahead(s) - if PublisherStep(step) then 1 else 0)
      && (!PublisherStep(step) ==> t.publisher == s.publisher)
  {
    StepKeepsInvariant(c, s, step);
    DeadlineIsNear(c, s.now);
  }

  function Snapshots(steps: seq<Step>): nat {
    if steps == [] then 0 else (if steps[0].Snapshot? then 1 else 0) + Snapshots(steps[1..])
  }

  lemma {:induction false} RunLoops(c: Settings, s: State, steps: seq<Step>)
    requires WellFormed(c) && Looping(c, s) && NoStop(steps) && Run(c, s, steps).Some?
    ensures var t := Run(c, s, steps).value;
      && Looping(c, t) && t.now == s.now + Waited(steps)
      && (Snapshots(steps) == 0 ==> Ahead(t) + PublisherSteps(steps) <= Ahead(s))
      && (PublisherSteps(steps) == 0 ==> t.publisher == s.publisher)
    decreases |steps|
  {
    if steps == [] {
    } else {
      StepLoops(c, s, steps[0]);
      RunLoops(c, Do(c, s, steps[0]), steps[1..]);
    }
  }

  /** Every interleaving publishes: wherever the loop is, by its ninth step it has taken
      a snapshot, whatever messages arrive in between. */
  lemma EveryInterleavingPublishes(c: Settings, s: State, steps: seq<Step>)
    requires WellFormed(c) && Looping(c, s) && NoStop(steps) && Run(c, s, steps).Some?
    requires PublisherSteps(steps) >= 9
    ensures Snapshots(steps) >= 1
  {
    RunLoops(c, s, steps);
  }

  /** A publisher that is not asleep can step. */
  lemma AwakeCanStep(c: Settings, s: State) returns (step: Step)
    requires WellFormed(c) && Looping(c, s)
    requires s.publisher.Waiting? ==> s.publisher.deadline.Some? && s.publisher.deadline.value <= s.now
    ensures PublisherStep(step) && Enabled(c, s, step)
  {
    match s.publisher
    case LoopTest => step := TestLoop;
    case Scheduling => step := Schedule;
    case Waiting(_) => step := WakeUp;
    case ClearingWake => step := ClearWake;
    case Retesting => step := Retest;
    case Starting => step := ReadClock;
    case Collecting(_) => step := Snapshot;
    case Deciding(_) => step := Skip;
    case Writing => step := FinishWrite;
  }

  /** Whatever the others do, after an interval without a step the publisher can make one. */
  lemma AnIntervalIsEnough(c: Settings, s: State, steps: seq<Step>) returns (step: Step)
    requires WellFormed(c) && Looping(c, s) && NoStop(steps) && Run(c, s, steps).Some?
    requires PublisherSteps(steps) == 0 && Waited(steps) >= c.intervalSeconds * SECOND
    ensures PublisherStep(step) && Enabled(c, Run(c, s, steps).value, step)
  {
    RunLoops(c, s, steps);
    step := AwakeCanStep(c, Run(c, s, steps).value);
  }

  /** How long the publisher may still sleep before its next snapshot. */
  function Sleep(c: Settings, s: State): int {
    if Ahead(s) > 5 then c.intervalSeconds * SECOND
    else if s.publisher.Waiting? && s.publisher.deadline.Some? && s.publisher.deadline.value > s.now
    then s.publisher.deadline.value - s.now
    else 0
  }

  lemma SleepIsBounded(c: Settings, s: State)
    requires WellFormed(c) && Looping(c, s)
    ensures 0 <= Sleep(c, s) <= c.intervalSeconds * SECOND
  {
  }

  /** What the publisher does next, after what is left of its sleep. */
  lemma NextOnTheWay(c: Settings, s: State) returns (step: Step)
    requires WellFormed(c) && Looping(c, s)
    ensures Enabled(c, s, step) && (PublisherStep(step) || step.Tick?)
    ensures var t := Do(c, s, step); Looping(c, t) && if step.Snapshot? then t.covered == s.stored
      else if step.Tick? then t == s.(now := t.now) && Sleep(c, t) == 0 && step.elapsed == Sleep(c, s) > 0
      else Ahead(t) < Ahead(s) && Sleep(c, t) <= Sleep(c, s) && t.stored == s.stored
  {
    if s.publisher.Waiting? && s.publisher.deadline.value > s.now {
      step := Tick(s.publisher.deadline.value - s.now);
    } else {
      step := AwakeCanStep(c, s);
    }
    StepLoops(c, s, step);
    SleepIsBounded(c, Do(c, s, step));
  }

  /** So from every state of the loop a snapshot is at most nine publisher steps and an
      interval of waiting away. */
  lemma {:induction false} SnapshotIsNear(c: Settings, s: State) returns (steps: seq<Step>)
    requires WellFormed(c) && Looping(c, s)
    ensures PublisherSteps(steps) <= Ahead(s) <= 9 && Waited(steps) <= Sleep(c, s) <= c.intervalSeconds * SECOND
    ensures forall i :: 0 <= i < |steps| ==> PublisherStep(steps[i]) || steps[i].Tick?
    ensures Snapshots(steps) == 1
    ensures Run(c, s, steps).Some? && Run(c, s, steps).value.covered == s.stored
    decreases Ahead(s), Sleep(c, s)
  {
    SleepIsBounded(c, s);
    var step := NextOnTheWay(c, s);
    var rest := [];
    if !step.Snapshot? {
      rest := SnapshotIsNear(c, Do(c, s, step));
    }
    steps := [step] + rest;
  }
}
