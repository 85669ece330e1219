/**
  The current-value map of bridge/collector.py. Decoding, number parsing and unit
  conversion are parameters; the routing, the dotted paths, the map and what an
  exception on the way leaves behind are modelled.
*/
module Collector {
  import Quantities
  import Records
  import opened Common
  import opened Strings
  import opened Documents
  import opened Topic

  // ----- sources and messages -----------------------------------------------

  /** The name a reading is held under: a core field's, or a whole "extra:..." name. */
  type Name = Records.Target

  type Reading = Records.Reading

  /** `toSi` is None where the conversion raises or gives no finite number. */
  datatype Mapping = Mapping(
    name: Name, parameter: string, dimension: Records.Dimension, decimals: int, height: Option<Quantities.Float>,
    multiplier: real, offset: real,
    ignoreBelow: Option<real>, ignoreAbove: Option<real>, toSi: real -> Option<real>)

  datatype Payload = NumberPayload | TextPayload

  datatype Stamp = Stamp(path: string, format: string)

  datatype Source =
    | JsonSource(topic: string, trigger: bool, ignoreRetained: bool,
                 root: string, timestamp: Option<Stamp>, mappings: seq<(string, Mapping)>)
    | ScalarSource(topic: string, trigger: bool, ignoreRetained: bool, payload: Payload, mapping: Mapping)

  /** An exception that leaves `ingest`: OverflowError of float(), or ValueError of
      json.loads on an integer of too many digits. */
  datatype Raised = Overflow | TooLong

  /** A message with what json.loads and the UTF-8 decoder make of its payload; no
      document is one json.loads finds invalid. */
  datatype Message = Message(
    topic: string, retain: bool, receivedAt: int, document: Result<Option<Json>, Raised>, text: Option<string>)

  datatype Config = Config(sources: seq<Source>, useReceived: bool, parsers: Parsers)

  type Event = (Name, Reading)

  /** What processing takes, and the exception it ends with, if any. */
  datatype Taken = Taken(events: seq<Event>, raised: Option<Raised>)

  predicate ValidConfig(c: Config) {
    forall i :: 0 <= i < |c.sources| ==> ValidLevels(Split(c.sources[i].topic, '/'))
  }

  function CoerceNumber(v: Json, p: Parsers): Result<Option<real>, Raised> {
    match v
    case JNumber(n) => Ok(Some(n))
    case JString(s) => Ok(p.number(s))
    case JHuge => Err(Overflow)
    case _ => Ok(None)
  }

  /** `parse_timestamp`, which coerces outside its try unless the format is ISO. */
  function ParseTimestamp(v: Json, format: string, p: Parsers): Result<Option<int>, Raised> {
    if v.JHuge? && format != "iso" then Err(Overflow) else Ok(p.moment(v, format))
  }

  function Calibrated(m: Mapping, raw: real): real {
    raw * m.multiplier + m.offset
  }

  /** `_record`: calibrate, range-check, convert. */
  function Accept(m: Mapping, raw: real, observedAt: int, msg: Message, source: string): Option<Reading> {
    var calibrated := Calibrated(m, raw);
    if m.ignoreBelow.Some? && calibrated < m.ignoreBelow.value then None
    else if m.ignoreAbove.Some? && calibrated > m.ignoreAbove.value then None
    else
      var si := m.toSi(calibrated);
      if si.None? then None
      else Some(Records.Reading(m.name, m.parameter, Quantities.Finite(si.value), m.dimension, m.decimals,
                                observedAt, msg.receivedAt, source, m.height))
  }

  /** `_observed_at_for` of the collector: the payload's own time, if it is wanted and readable. */
  function ObservedAt(c: Config, s: Source, root: Json, msg: Message): Result<int, Raised>
    requires s.JsonSource?
  {
    if c.useReceived || s.timestamp.None? then Ok(msg.receivedAt)
    else
      var at := s.timestamp.value;
      var parsed := ParseTimestamp(Walk(root, Segments(at.path, c.parsers), c.parsers), at.format, c.parsers);
      if parsed.Err? then Err(parsed.error)
      else Ok(if parsed.value.Some? then parsed.value.value else msg.receivedAt)
  }

  function One(name: Name, r: Option<Reading>): Taken {
    Taken(if r.Some? then [(name, r.value)] else [], None)
  }

  function MappingTakes(c: Config, root: Json, path: string, m: Mapping, observedAt: int, msg: Message): Taken {
    var value := CoerceNumber(Walk(root, Segments(path, c.parsers), c.parsers), c.parsers);
    if value.Err? then Taken([], Some(value.error))
    else if value.value.None? then Taken([], None)
    else One(m.name, Accept(m, value.value.value, observedAt, msg, msg.topic + "#" + path))
  }

  /** One thing after another, as far as the first exception. */
  function Then(before: Taken, next: Taken): Taken {
    if before.raised.Some? then before else Taken(before.events + next.events, next.raised)
  }

  /** What the first `n` mappings of a JSON source take, in mapping order. */
  function MappingsTake(c: Config, s: Source, root: Json, observedAt: int, msg: Message, n: nat): Taken
    requires s.JsonSource? && n <= |s.mappings|
  {
    if n == 0 then Taken([], None)
    else Then(MappingsTake(c, s, root, observedAt, msg, n - 1),
              MappingTakes(c, root, s.mappings[n - 1].0, s.mappings[n - 1].1, observedAt, msg))
  }

  function Root(s: Source, document: Json, p: Parsers): Json
    requires s.JsonSource?
  {
    if s.root == "" then document else Walk(document, Segments(s.root, p), p)
  }

  function JsonTakes(c: Config, s: Source, msg: Message): Taken
    requires s.JsonSource?
  {
    if msg.document.Err? then Taken([], Some(msg.document.error))
    else if msg.document.value.None? then Taken([], None)
    else
      var root := Root(s, msg.document.value.value, c.parsers);
      if !root.JObject? then Taken([], None)
      else
        var observedAt := ObservedAt(c, s, root, msg);
        if observedAt.Err? then Taken([], Some(observedAt.error))
        else MappingsTake(c, s, root, observedAt.value, msg, |s.mappings|)
  }

  function ReadScalar(payload: Payload, text: string, p: Parsers): Option<real> {
    if payload.NumberPayload? then p.number(text) else p.search(text)
  }

  function ScalarTakes(c: Config, s: Source, msg: Message): Taken
    requires s.ScalarSource?
  {
    if msg.text.None? || msg.text.value == "" then Taken([], None)
    else
      var raw := ReadScalar(s.payload, msg.text.value, c.parsers);
      if raw.None? then Taken([], None)
      else One(s.mapping.name, Accept(s.mapping, raw.value, msg.receivedAt, msg, msg.topic))
  }

  predicate Routed(s: Source, msg: Message) {
    Matches(Split(s.topic, '/'), Split(msg.topic, '/'))
  }

  predicate Ignored(s: Source, msg: Message) {
    msg.retain && s.ignoreRetained
  }

  function SourceTakes(c: Config, s: Source, msg: Message): Taken {
    if s.JsonSource? then JsonTakes(c, s, msg) else ScalarTakes(c, s, msg)
  }

  /** What offering a message to one source comes to. */
  datatype Outcome = Outcome(matched: bool, ignored: bool, triggering: bool, taken: Taken)

  function Offered(c: Config, s: Source, msg: Message): Outcome {
    var matched, ignored := Routed(s, msg), Routed(s, msg) && Ignored(s, msg);
    Outcome(matched, ignored, s.trigger, if matched && !ignored then SourceTakes(c, s, msg) else Taken([], None))
  }

  /** What a message comes to: everything taken in source and mapping order up to an
      exception, and the loop's flags and count. */
  datatype Tally = Tally(taken: Taken, triggered: bool, matched: bool, ignored: nat)

  function AddOutcome(t: Tally, o: Outcome): Tally {
    if t.taken.raised.Some? then t
    else Tally(Then(t.taken, o.taken), t.triggered || (o.triggering && o.taken.events != []), t.matched || o.matched,
               t.ignored + if o.ignored then 1 else 0)
  }

  /** After the first `n` sources. */
  function Tallied(c: Config, msg: Message, n: nat): Tally
    requires n <= |c.sources|
  {
    if n == 0 then Tally(Taken([], None), false, false, 0)
    else AddOutcome(Tallied(c, msg, n - 1), Offered(c, c.sources[n - 1], msg))
  }

  function Accepted(c: Config, msg: Message): Tally {
    Tallied(c, msg, |c.sources|)
  }

  /** After an exception nothing more is taken or counted. */
  lemma {:induction false} RaisedStays(c: Config, msg: Message, k: nat, n: nat)
    requires k <= n <= |c.sources| && Tallied(c, msg, k).taken.raised.Some?
    ensures Tallied(c, msg, n) == Tallied(c, msg, k)
    decreases n - k
  {
    if k == n {
    } else {
      RaisedStays(c, msg, k, n - 1);
    }
  }

  // ----- the map ------------------------------------------------------------

  /** Assignments in order, as the dict sees them. */
  function Apply(m: map<Name, Reading>, log: seq<Event>): map<Name, Reading> {
    if log == [] then m
    else Apply(m, log[..|log| - 1])[log[|log| - 1].0 := log[|log| - 1].1]
  }

  lemma {:induction false} ApplyAppend(m: map<Name, Reading>, a: seq<Event>, b: seq<Event>)
    ensures Apply(m, a + b) == Apply(Apply(m, a), b)
  {
    if b == [] {
      assert a + b == a;
    } else {
      assert (a + b)[..|a + b| - 1] == a + b[..|b| - 1];
      ApplyAppend(m, a, b[..|b| - 1]);
    }
  }

  lemma ThenApplies(m: map<Name, Reading>, t: Taken, next: Taken)
    requires t.raised.None?
    ensures Apply(m, Then(t, next).events) == Apply(Apply(m, t.events), next.events)
    ensures |Then(t, next).events| == |t.events| + |next.events|
  {
    ApplyAppend(m, t.events, next.events);
  }

  /** After an exception no mapping takes anything. */
  lemma {:induction false} RaisedMappingsStay(c: Config, s: Source, root: Json, observedAt: int, msg: Message,
                                              k: nat, n: nat)
    requires s.JsonSource? && k <= n <= |s.mappings| && MappingsTake(c, s, root, observedAt, msg, k).raised.Some?
    ensures MappingsTake(c, s, root, observedAt, msg, n) == MappingsTake(c, s, root, observedAt, msg, k)
    decreases n - k
  {
    if k == n {
    } else {
      RaisedMappingsStay(c, s, root, observedAt, msg, k, n - 1);
    }
  }

  /** Where `name` was last assigned, or -1. */
  function LastFor(log: seq<Event>, name: Name): (i: int)
    ensures -1 <= i < |log| && (i >= 0 ==> log[i].0 == name)
    ensures forall j :: i < j < |log| ==> log[j].0 != name
  {
    if log == [] then -1
    else if log[|log| - 1].0 == name then |log| - 1 else LastFor(log[..|log| - 1], name)
  }

  /** The last assignment to each name is the one that counts. */
  lemma {:induction false} LastAssignmentWins(m: map<Name, Reading>, log: seq<Event>, name: Name)
    ensures var i := LastFor(log, name);
      if i >= 0 then name in Apply(m, log) && Apply(m, log)[name] == log[i].1
      else (name in Apply(m, log) <==> name in m) && (name in m ==> Apply(m, log)[name] == m[name])
  {
    if log == [] {
    } else {
      LastAssignmentWins(m, log[..|log| - 1], name);
    }
  }

  // ----- the class ----------------------------------------------------------

  datatype IngestResult = IngestResult(updated: nat, triggered: bool)

  class ReadingCollector {
    const c: Config
    var readings: map<Name, Reading>
    var ignoredRetained: nat
    var unmatchedMessages: nat

    constructor (c: Config)
      ensures this.c == c && readings == map[] && ignoredRetained == 0 && unmatchedMessages == 0
    {
      this.c, readings, ignoredRetained, unmatchedMessages := c, map[], 0, 0;
    }

    method Ingest(msg: Message) returns (r: Result<IngestResult, Raised>)
      requires ValidConfig(c)
      modifies this
      ensures var t := Accepted(c, msg);
        && readings == Apply(old(readings), t.taken.events)
        && ignoredRetained == old(ignoredRetained) + t.ignored
        && unmatchedMessages == old(unmatchedMessages) + (if t.matched || t.taken.raised.Some? then 0 else 1)
        && r == if t.taken.raised.Some? then Err(t.taken.raised.value)
                else Ok(IngestResult(|t.taken.events|, t.triggered))
    {
      var updated, triggered, matchedAny := 0, false, false;
      ghost var t := Tallied(c, msg, 0);
      for n := 0 to |c.sources|
        invariant t == Tallied(c, msg, n) && t.taken.raised.None?
        invariant readings == Apply(old(readings), t.taken.events) && updated == |t.taken.events|
        invariant triggered == t.triggered && matchedAny == t.matched
        invariant ignoredRetained == old(ignoredRetained) + t.ignored
        invariant unmatchedMessages == old(unmatchedMessages)
      {
        ghost var before := t;
        var matched, count, o := Offer(n, msg);
        ThenApplies(old(readings), before.taken, o.taken);
        t := AddOutcome(before, o);
        if count.Err? {
          return Err(count.error);
        }
        matchedAny := matchedAny || matched;
        updated := updated + count.value;
        if count.value > 0 && c.sources[n].trigger {
          triggered := true;
        }
      }
      if !matchedAny {
        unmatchedMessages := unmatchedMessages + 1;
      }
      return Ok(IngestResult(updated, triggered));
    }

    /** One round of the loop over the sources. */
    method Offer(n: nat, msg: Message) returns (matched: bool, count: Result<nat, Raised>, ghost o: Outcome)
      requires ValidConfig(c) && n < |c.sources|
      modifies this`readings, this`ignoredRetained
      ensures Tallied(c, msg, n + 1) == AddOutcome(Tallied(c, msg, n), o) && o.triggering == c.sources[n].trigger
      ensures Tallied(c, msg, n + 1).taken.raised.Some? ==> Accepted(c, msg) == Tallied(c, msg, n + 1)
      ensures readings == Apply(old(readings), o.taken.events) && Counts(count, o.taken)
      ensures matched == o.matched
      ensures ignoredRetained == old(ignoredRetained) + if o.ignored then 1 else 0
    {
      var source := c.sources[n];
      o := Offered(c, source, msg);
      if Tallied(c, msg, n + 1).taken.raised.Some? {
        RaisedStays(c, msg, n + 1, |c.sources|);
      }
      count := Ok(0);
      matched := TopicMatches(source.topic, msg.topic);
      if matched {
        if Ignored(source, msg) {
          ignoredRetained := ignoredRetained + 1;
        } else {
          count := IngestSource(source, msg, o.taken);
        }
      }
    }

    method IngestSource(s: Source, msg: Message, ghost t: Taken) returns (updated: Result<nat, Raised>)
      requires t == SourceTakes(c, s, msg)
      modifies this`readings
      ensures readings == Apply(old(readings), t.events) && Counts(updated, t)
    {
      if s.JsonSource? {
        updated := IngestJson(s, msg);
      } else {
        updated := IngestScalar(s, msg);
      }
    }

    method IngestJson(s: Source, msg: Message) returns (updated: Result<nat, Raised>)
      requires s.JsonSource?
      modifies this`readings
      ensures readings == Apply(old(readings), JsonTakes(c, s, msg).events) && Counts(updated, JsonTakes(c, s, msg))
    {
      if msg.document.Err? {
        return Err(msg.document.error);
      }
      if msg.document.value.None? {
        return Ok(0);
      }
      var root := msg.document.value.value;
      if s.root != "" {
        root := GetPath(root, s.root, c.parsers);
      }
      if !root.JObject? {
        return Ok(0);
      }
      var observedAt := ObservedAt(c, s, root, msg);
      if observedAt.Err? {
        return Err(observedAt.error);
      }
      updated := IngestMappings(s, root, observedAt.value, msg);
    }

    method IngestMappings(s: Source, root: Json, observedAt: int, msg: Message) returns (updated: Result<nat, Raised>)
      requires s.JsonSource?
      modifies this`readings
      ensures var t := MappingsTake(c, s, root, observedAt, msg, |s.mappings|);
        readings == Apply(old(readings), t.events) && Counts(updated, t)
    {
      var count := 0;
      ghost var t := Taken([], None);
      for n := 0 to |s.mappings|
        invariant t == MappingsTake(c, s, root, observedAt, msg, n) && t.raised.None?
        invariant readings == Apply(old(readings), t.events) && count == |t.events|
      {
        var stored;
        stored, t := IngestMapping(s, n, root, observedAt, msg, old(readings), t);
        if stored.Err? {
          return Err(stored.error);
        }
        count := count + stored.value;
      }
      return Ok(count);
    }

    /** One round of the loop over the mappings; `t` is what was taken before it. */
    method IngestMapping(s: Source, n: nat, root: Json, observedAt: int, msg: Message,
                         ghost before: map<Name, Reading>, ghost t: Taken)
      returns (stored: Result<nat, Raised>, ghost t': Taken)
      requires s.JsonSource? && n < |s.mappings|
      requires t == MappingsTake(c, s, root, observedAt, msg, n) && t.raised.None?
      requires readings == Apply(before, t.events)
      modifies this`readings
      ensures t' == MappingsTake(c, s, root, observedAt, msg, n + 1) && readings == Apply(before, t'.events)
      ensures stored.Ok? ==> t'.raised.None? && |t'.events| == |t.events| + stored.value
      ensures stored.Err? ==>
        t'.raised == Some(stored.error) && t' == MappingsTake(c, s, root, observedAt, msg, |s.mappings|)
    {
      var (path, mapping) := s.mappings[n];
      ghost var next := MappingTakes(c, root, path, mapping, observedAt, msg);
      t' := Then(t, next);
      ThenApplies(before, t, next);
      if t'.raised.Some? {
        RaisedMappingsStay(c, s, root, observedAt, msg, n + 1, |s.mappings|);
      }
      stored := IngestValue(path, mapping, root, observedAt, msg);
    }

    /** Reads, coerces and stores the value at one path. */
    method IngestValue(path: string, mapping: Mapping, root: Json, observedAt: int, msg: Message)
      returns (stored: Result<nat, Raised>)
      modifies this`readings
      ensures var next := MappingTakes(c, root, path, mapping, observedAt, msg);
        readings == Apply(old(readings), next.events) && Counts(stored, next)
    {
      var raw := GetPath(root, path, c.parsers);
      var value := CoerceNumber(raw, c.parsers);
      if value.Err? {
        return Err(value.error);
      }
      if value.value.None? {
        return Ok(0);
      }
      var accepted := Store(mapping, value.value.value, observedAt, msg, msg.topic + "#" + path);
      stored := Ok(if accepted then 1 else 0);
    }

    method IngestScalar(s: Source, msg: Message) returns (updated: Result<nat, Raised>)
      requires s.ScalarSource?
      modifies this`readings
      ensures readings == Apply(old(readings), ScalarTakes(c, s, msg).events) && Counts(updated, ScalarTakes(c, s, msg))
    {
      if msg.text.None? || msg.text.value == "" {
        return Ok(0);
      }
      var raw := ReadScalar(s.payload, msg.text.value, c.parsers);
      if raw.None? {
        return Ok(0);
      }
      var stored := Store(s.mapping, raw.value, msg.receivedAt, msg, msg.topic);
      return Ok(if stored then 1 else 0);
    }

    method Store(m: Mapping, raw: real, observedAt: int, msg: Message, source: string) returns (stored: bool)
      modifies this`readings
      ensures readings == Apply(old(readings), One(m.name, Accept(m, raw, observedAt, msg, source)).events)
      ensures stored <==> Accept(m, raw, observedAt, msg, source).Some?
    {
      var reading := Accept(m, raw, observedAt, msg, source);
      stored := reading.Some?;
      if stored {
        readings := readings[m.name := reading.value];
      }
    }

    /** Readings no older than the limit. */
    method Snapshot(now: int, maxAge: int) returns (current: map<Name, Reading>)
      ensures forall n :: n in current <==> n in readings && now - readings[n].observedAt <= maxAge
      ensures forall n :: n in current ==> current[n] == readings[n]
    {
      current := map n | n in readings && now - readings[n].observedAt <= maxAge :: readings[n];
    }
  }

  /** A count of what was taken, or the exception. */
  predicate Counts(count: Result<nat, Raised>, t: Taken) {
    match count
    case Ok(n) => t.raised.None? && n == |t.events|
    case Err(e) => t.raised == Some(e)
  }

  // ----- whole runs ---------------------------------------------------------

  predicate Fires(o: Outcome) {
    o.triggering && o.taken.events != []
  }

  lemma AddedMeans(t: Tally, o: Outcome)
    requires AddOutcome(t, o).taken.raised.None?
    ensures t.taken.raised.None? && (AddOutcome(t, o).matched <==> t.matched || o.matched)
    ensures AddOutcome(t, o).triggered <==> t.triggered || Fires(o)
  {
  }

  /** Source `i` sets the flags, if it is among the first `n`. */
  lemma {:induction false} TalliedFrom(c: Config, msg: Message, n: nat, i: nat)
    requires i < n <= |c.sources| && Tallied(c, msg, n).taken.raised.None?
    ensures Fires(Offered(c, c.sources[i], msg)) ==> Tallied(c, msg, n).triggered
    ensures Offered(c, c.sources[i], msg).matched ==> Tallied(c, msg, n).matched
  {
    AddedMeans(Tallied(c, msg, n - 1), Offered(c, c.sources[n - 1], msg));
    if i == n - 1 {
    } else {
      TalliedFrom(c, msg, n - 1, i);
    }
  }

  /** The source that set the trigger flag. */
  lemma {:induction false} TriggeredBy(c: Config, msg: Message, n: nat) returns (i: nat)
    requires n <= |c.sources| && Tallied(c, msg, n).taken.raised.None? && Tallied(c, msg, n).triggered
    ensures i < n && Fires(Offered(c, c.sources[i], msg))
  {
    AddedMeans(Tallied(c, msg, n - 1), Offered(c, c.sources[n - 1], msg));
    if Tallied(c, msg, n - 1).triggered {
      i := TriggeredBy(c, msg, n - 1);
    } else {
      i := n - 1;
    }
  }

  /** The source that the message was for. */
  lemma {:induction false} MatchedBy(c: Config, msg: Message, n: nat) returns (i: nat)
    requires n <= |c.sources| && Tallied(c, msg, n).taken.raised.None? && Tallied(c, msg, n).matched
    ensures i < n && Offered(c, c.sources[i], msg).matched
  {
    AddedMeans(Tallied(c, msg, n - 1), Offered(c, c.sources[n - 1], msg));
    if Tallied(c, msg, n - 1).matched {
      i := MatchedBy(c, msg, n - 1);
    } else {
      i := n - 1;
    }
  }

  /** A message counts as matched exactly when it is for some source. */
  lemma MatchedExactlyWhen(c: Config, msg: Message)
    requires Accepted(c, msg).taken.raised.None?
    ensures Accepted(c, msg).matched <==> exists i :: 0 <= i < |c.sources| && Routed(c.sources[i], msg)
  {
    if Accepted(c, msg).matched {
      var i := MatchedBy(c, msg, |c.sources|);
      TookMeans(c, c.sources[i], msg);
    }
    forall i | 0 <= i < |c.sources| && Routed(c.sources[i], msg) ensures Accepted(c, msg).matched {
      TookMeans(c, c.sources[i], msg);
      TalliedFrom(c, msg, |c.sources|, i);
    }
  }

  /** A message triggers exactly when a trigger source it is for, and not ignored by,
      took a reading from it, and no exception ended its processing. */
  lemma TriggersExactlyWhen(c: Config, msg: Message)
    requires Accepted(c, msg).taken.raised.None?
    ensures Accepted(c, msg).triggered <==> exists i :: 0 <= i < |c.sources| && Took(c, c.sources[i], msg)
  {
    if Accepted(c, msg).triggered {
      var i := TriggeredBy(c, msg, |c.sources|);
      TookMeans(c, c.sources[i], msg);
    }
    forall i | 0 <= i < |c.sources| && Took(c, c.sources[i], msg) ensures Accepted(c, msg).triggered {
      TookMeans(c, c.sources[i], msg);
      TalliedFrom(c, msg, |c.sources|, i);
    }
  }

  lemma TookMeans(c: Config, s: Source, msg: Message)
    ensures Fires(Offered(c, s, msg)) <==> Took(c, s, msg)
    ensures Offered(c, s, msg).matched <==> Routed(s, msg)
  {
  }

  predicate Took(c: Config, s: Source, msg: Message) {
    s.trigger && Routed(s, msg) && !Ignored(s, msg) && SourceTakes(c, s, msg).events != []
  }

  /** Everything accepted from a sequence of messages, in message, source and mapping
      order. An exception ends its message and no other. */
  function Log(c: Config, msgs: seq<Message>): seq<Event> {
    if msgs == [] then []
    else Log(c, msgs[..|msgs| - 1]) + Accepted(c, msgs[|msgs| - 1]).taken.events
  }

  method IngestAll(collector: ReadingCollector, msgs: seq<Message>)
    requires ValidConfig(collector.c)
    modifies collector
    ensures collector.readings == Apply(old(collector.readings), Log(collector.c, msgs))
  {
    for n := 0 to |msgs|
      invariant collector.readings == Apply(old(collector.readings), Log(collector.c, msgs[..n]))
    {
      assert msgs[..n + 1][..n] == msgs[..n];
      ApplyAppend(old(collector.readings), Log(collector.c, msgs[..n]), Accepted(collector.c, msgs[n]).taken.events);
      var _ := collector.Ingest(msgs[n]);
    }
    assert msgs[..|msgs|] == msgs;
  }

  /** Nothing later in the log has the name of entry `i`. */
  predicate LastNamed(log: seq<Event>, i: nat)
    requires i < |log|
  {
    forall j :: i < j < |log| ==> log[j].0 != log[i].0
  }

  /** After any messages the reading held for a name is the last one accepted. */
  lemma CollectorHoldsTheLatest(c: Config, msgs: seq<Message>, name: Name)
    ensures var log, m := Log(c, msgs), Apply(map[], Log(c, msgs));
      && (name in m <==> exists i :: 0 <= i < |log| && log[i].0 == name)
      && (name in m ==> exists i :: 0 <= i < |log| && log[i] == (name, m[name]) && LastNamed(log, i))
  {
    var log := Log(c, msgs);
    LastAssignmentWins(map[], log, name);
    var i := LastFor(log, name);
    assert i >= 0 ==> LastNamed(log, i);
  }
}
