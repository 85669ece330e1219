/**
  What one message comes to: the calibration law of a mapping, and exactly which
  readings of the message are taken, with which values and in which order.
*/
module Ingestion {
  import Quantities
  import Records
  import opened Common
  import opened Documents
  import opened Collector

  // ----- calibration --------------------------------------------------------

  /** The calibration is affine: zero becomes the offset, and a difference between raw
      numbers is multiplied. */
  lemma CalibrationIsAffine(m: Mapping, raw: real, more: real)
    ensures Calibrated(m, 0.0) == m.offset
    ensures Calibrated(m, raw + more) - Calibrated(m, raw) == m.multiplier * more
  {
    Distributes(m.multiplier, raw, more);
  }

  lemma Distributes(a: real, x: real, y: real)
    ensures (x + y) * a == x * a + a * y
  {
  }

  /** In the range the mapping does not ignore, whose ends belong to it. */
  predicate InRange(m: Mapping, x: real) {
    (m.ignoreBelow.Some? ==> m.ignoreBelow.value <= x) && (m.ignoreAbove.Some? ==> x <= m.ignoreAbove.value)
  }

  /** A raw number is taken exactly if its calibrated value is in range and converts. */
  lemma AcceptedExactlyWhen(m: Mapping, raw: real, at: int, msg: Message, origin: string)
    ensures var x := Calibrated(m, raw);
      Accept(m, raw, at, msg, origin).Some? <==> InRange(m, x) && m.toSi(x).Some?
  {
  }

  /** What it is stored as: the conversion of the calibrated value, and everything else
      as the mapping and the message have it. */
  lemma StoredAs(m: Mapping, raw: real, at: int, msg: Message, origin: string)
    requires Accept(m, raw, at, msg, origin).Some?
    ensures var r, x := Accept(m, raw, at, msg, origin).value, Calibrated(m, raw);
      && m.toSi(x).Some? && r.value == Quantities.Finite(m.toSi(x).value)
      && r.target == m.name && r.parameter == m.parameter
      && r.dimension == m.dimension && r.decimals == m.decimals && r.height == m.height
      && r.observedAt == at && r.receivedAt == msg.receivedAt && r.source == origin
  {
  }

  // ----- reading numbers and times ------------------------------------------

  /** Numbers, and texts that are numbers, are numbers; only an integer past the float
      range raises. */
  lemma NumbersAre(v: Json, x: real, p: Parsers)
    ensures CoerceNumber(v, p) == Ok(Some(x)) <==> v == JNumber(x) || (v.JString? && p.number(v.s) == Some(x))
    ensures CoerceNumber(v, p).Err? <==> v.JHuge?
    ensures CoerceNumber(v, p).Err? ==> CoerceNumber(v, p).error == Overflow
  {
  }

  /** A root that is not configured is the document itself. */
  lemma RootIsWalk(s: Source, document: Json, p: Parsers)
    requires s.JsonSource?
    ensures Root(s, document, p) == Walk(document, Segments(s.root, p), p)
  {
    KeyIsSegment("a", p);
  }

  /** The payload's own time, if it is wanted, there and readable. */
  function OwnTime(c: Config, s: Source, root: Json): Option<int>
    requires s.JsonSource?
  {
    if c.useReceived || s.timestamp.None? then None
    else
      var v := Walk(root, Segments(s.timestamp.value.path, c.parsers), c.parsers);
      if v.JHuge? && s.timestamp.value.format != "iso" then None else c.parsers.moment(v, s.timestamp.value.format)
  }

  /** A reading is as old as its payload says, or as its message; looking only raises
      on an integer past the float range where a number was expected. */
  lemma TimesAre(c: Config, s: Source, root: Json, msg: Message)
    requires s.JsonSource?
    ensures var r, own := ObservedAt(c, s, root, msg), OwnTime(c, s, root);
      && (r.Ok? ==> r.value == if own.Some? then own.value else msg.receivedAt)
      && (r.Err? ==> r.error == Overflow)
      && (r.Err? <==> !c.useReceived && s.timestamp.Some? && s.timestamp.value.format != "iso"
                      && Walk(root, Segments(s.timestamp.value.path, c.parsers), c.parsers).JHuge?)
  {
  }

  // ----- one mapping --------------------------------------------------------

  /** A number in a message, with what will be stored beside it. */
  datatype Found = Found(mapping: Mapping, raw: real, at: int, origin: string)

  /** What the JSON of a message has for mapping number `k`. */
  function FoundInJson(c: Config, s: Source, msg: Message, k: nat): Option<Found>
    requires s.JsonSource?
  {
    if k >= |s.mappings| || msg.document.Err? || msg.document.value.None? then None
    else
      var root := Root(s, msg.document.value.value, c.parsers);
      if !root.JObject? || ObservedAt(c, s, root, msg).Err? then None
      else
        var (path, m) := s.mappings[k];
        match CoerceNumber(Walk(root, Segments(path, c.parsers), c.parsers), c.parsers)
        case Ok(Some(raw)) => Some(Found(m, raw, ObservedAt(c, s, root, msg).value, msg.topic + "#" + path))
        case _ => None
  }

  /** What its text has for a scalar source, which has one mapping. */
  function FoundInText(c: Config, s: Source, msg: Message, k: nat): Option<Found>
    requires s.ScalarSource?
  {
    if k > 0 || msg.text.None? || msg.text.value == "" then None
    else
      match if s.payload.NumberPayload? then c.parsers.number(msg.text.value) else c.parsers.search(msg.text.value)
      case Some(raw) => Some(Found(s.mapping, raw, msg.receivedAt, msg.topic))
      case None => None
  }

  /** The reading a number makes: calibrated, if that is in range and converts. */
  function Made(f: Found, msg: Message): Option<Event> {
    var m, x := f.mapping, Calibrated(f.mapping, f.raw);
    if !InRange(m, x) || m.toSi(x).None? then None
    else Some((m.name, Records.Reading(m.name, m.parameter, Quantities.Finite(m.toSi(x).value), m.dimension, m.decimals,
                                       f.at, msg.receivedAt, f.origin, m.height)))
  }

  /** What mapping number `k` of a source yields from a message. */
  function Yield(c: Config, s: Source, msg: Message, k: nat): Option<Event> {
    var f := if s.JsonSource? then FoundInJson(c, s, msg, k) else FoundInText(c, s, msg, k);
    if f.None? then None else Made(f.value, msg)
  }

  /** The exception met at mapping number `k`; what the document or its time raise is
      met before the first. */
  function Raises(c: Config, s: Source, msg: Message, k: nat): Option<Raised> {
    if s.ScalarSource? then None
    else if msg.document.Err? then if k == 0 then Some(msg.document.error) else None
    else if msg.document.value.None? then None
    else
      var root := Root(s, msg.document.value.value, c.parsers);
      if !root.JObject? then None
      else if ObservedAt(c, s, root, msg).Err? then if k == 0 then Some(Overflow) else None
      else if k < |s.mappings| && Walk(root, Segments(s.mappings[k].0, c.parsers), c.parsers).JHuge? then Some(Overflow)
      else None
  }

  function AsSeq(e: Option<Event>): seq<Event> {
    if e.None? then [] else [e.value]
  }

  lemma AcceptMakes(f: Found, msg: Message)
    ensures One(f.mapping.name, Accept(f.mapping, f.raw, f.at, msg, f.origin)) == Taken(AsSeq(Made(f, msg)), None)
  {
    AcceptedExactlyWhen(f.mapping, f.raw, f.at, msg, f.origin);
    if Accept(f.mapping, f.raw, f.at, msg, f.origin).Some? {
      StoredAs(f.mapping, f.raw, f.at, msg, f.origin);
    }
  }

  /** A document that gets as far as its mappings. */
  predicate HasObject(c: Config, s: Source, msg: Message) {
    && s.JsonSource? && msg.document.Ok? && msg.document.value.Some?
    && Root(s, msg.document.value.value, c.parsers).JObject?
    && ObservedAt(c, s, Root(s, msg.document.value.value, c.parsers), msg).Ok?
  }

  lemma MappingTakesItsYield(c: Config, s: Source, msg: Message, k: nat)
    requires HasObject(c, s, msg) && k < |s.mappings|
    ensures var root := Root(s, msg.document.value.value, c.parsers);
      MappingTakes(c, root, s.mappings[k].0, s.mappings[k].1, ObservedAt(c, s, root, msg).value, msg)
      == Taken(AsSeq(Yield(c, s, msg, k)), Raises(c, s, msg, k))
  {
    if FoundInJson(c, s, msg, k).Some? {
      AcceptMakes(FoundInJson(c, s, msg, k).value, msg);
    }
  }

  // ----- one thing after another --------------------------------------------

  /** `ts` in their order, as far as the first exception. */
  function InTurn(ts: seq<Taken>): Taken {
    if ts == [] then Taken([], None) else Then(InTurn(ts[..|ts| - 1]), ts[|ts| - 1])
  }

  function Events(ts: seq<Taken>): seq<Event> {
    if ts == [] then [] else Events(ts[..|ts| - 1]) + ts[|ts| - 1].events
  }

  predicate Quiet(ts: seq<Taken>) {
    forall i :: 0 <= i < |ts| ==> ts[i].raised.None?
  }

  /** That is all of their events if none raises, and otherwise those up to and with the
      first that does, and its exception. */
  lemma {:induction false} InTurnMeans(ts: seq<Taken>) returns (k: nat)
    ensures k <= |ts| && Quiet(ts[..k])
    ensures k == |ts| ==> InTurn(ts) == Taken(Events(ts), None)
    ensures k < |ts| ==> ts[k].raised.Some? && InTurn(ts) == Taken(Events(ts[..k + 1]), ts[k].raised)
  {
    if ts == [] {
      k := 0;
    } else {
      var init, last := ts[..|ts| - 1], ts[|ts| - 1];
      k := InTurnMeans(init);
      assert forall j :: 0 <= j <= |init| ==> ts[..j] == init[..j];
      if k == |init| {
        assert ts[..k + 1] == ts && ts[..k] == init;
        k := if last.raised.Some? then k else |ts|;
        assert ts[..|ts|] == ts;
      }
    }
  }

  lemma InTurnAppends(ts: seq<Taken>, t: Taken)
    ensures InTurn(ts + [t]) == Then(InTurn(ts), t)
  {
    assert (ts + [t])[..|ts|] == ts;
  }

  // ----- one source ---------------------------------------------------------

  /** What mapping number `k` adds: what it yields, or the exception it meets. */
  function Adds(c: Config, s: Source, msg: Message, k: nat): Taken {
    Taken(AsSeq(Yield(c, s, msg, k)), Raises(c, s, msg, k))
  }

  function AllAdd(c: Config, s: Source, msg: Message, n: nat): (ts: seq<Taken>)
    ensures |ts| == n
  {
    if n == 0 then [] else AllAdd(c, s, msg, n - 1) + [Adds(c, s, msg, n - 1)]
  }

  /** The mappings of a source; one without any still looks at the document. */
  function Places(s: Source): nat {
    if s.JsonSource? && s.mappings != [] then |s.mappings| else 1
  }

  function FirstTake(c: Config, s: Source, msg: Message, n: nat): Taken
    requires HasObject(c, s, msg) && n <= |s.mappings|
  {
    var root := Root(s, msg.document.value.value, c.parsers);
    MappingsTake(c, s, root, ObservedAt(c, s, root, msg).value, msg, n)
  }

  lemma FirstTakeGrows(c: Config, s: Source, msg: Message, n: nat)
    requires HasObject(c, s, msg) && 0 < n <= |s.mappings|
    ensures FirstTake(c, s, msg, n) == Then(FirstTake(c, s, msg, n - 1), Adds(c, s, msg, n - 1))
  {
    MappingTakesItsYield(c, s, msg, n - 1);
  }

  lemma {:induction false} MappingsTakeTheirYields(c: Config, s: Source, msg: Message, n: nat)
    requires HasObject(c, s, msg) && n <= |s.mappings|
    ensures FirstTake(c, s, msg, n) == InTurn(AllAdd(c, s, msg, n))
  {
    if n == 0 {
    } else {
      MappingsTakeTheirYields(c, s, msg, n - 1);
      FirstTakeGrows(c, s, msg, n);
      InTurnAppends(AllAdd(c, s, msg, n - 1), Adds(c, s, msg, n - 1));
    }
  }

  /** Without an object the document may raise, and there is nothing to find. */
  lemma NoObjectAdds(c: Config, s: Source, msg: Message, k: nat)
    requires s.JsonSource? && !HasObject(c, s, msg)
    ensures Adds(c, s, msg, k) == Taken([], if k == 0 then Raises(c, s, msg, 0) else None)
  {
  }

  lemma NothingElseAdds(c: Config, s: Source, msg: Message, n: nat)
    requires s.JsonSource? && !HasObject(c, s, msg) && n > 0
    ensures InTurn(AllAdd(c, s, msg, n)) == Taken([], Raises(c, s, msg, 0))
  {
    var ts := AllAdd(c, s, msg, n);
    forall k: nat | k < n ensures ts[k] == Taken([], if k == 0 then Raises(c, s, msg, 0) else None) {
      AllAddAt(c, s, msg, n, k);
      NoObjectAdds(c, s, msg, k);
    }
    NothingBehind(ts);
  }

  lemma {:induction false} AllAddAt(c: Config, s: Source, msg: Message, n: nat, k: nat)
    requires k < n
    ensures AllAdd(c, s, msg, n)[k] == Adds(c, s, msg, k)
  {
    if k < n - 1 {
      AllAddAt(c, s, msg, n - 1, k);
    }
  }

  lemma {:induction false} NothingBehind(ts: seq<Taken>)
    requires ts != [] && ts[0].events == [] && forall k :: 0 < k < |ts| ==> ts[k] == Taken([], None)
    ensures InTurn(ts) == ts[0]
  {
    if |ts| == 1 {
      OneInTurn(ts[0]);
      assert ts == [ts[0]];
    } else {
      NothingBehind(ts[..|ts| - 1]);
    }
  }

  lemma OneAdds(c: Config, s: Source, msg: Message)
    ensures InTurn(AllAdd(c, s, msg, 1)) == Adds(c, s, msg, 0)
  {
    OneInTurn(Adds(c, s, msg, 0));
    assert AllAdd(c, s, msg, 1) == [Adds(c, s, msg, 0)];
  }

  lemma OneInTurn(t: Taken)
    ensures InTurn([t]) == t
  {
    InTurnAppends([], t);
  }

  /** A source takes from a message what its mappings yield, in their order, up to the
      first exception. */
  lemma SourceTakesItsYields(c: Config, s: Source, msg: Message)
    ensures SourceTakes(c, s, msg) == InTurn(AllAdd(c, s, msg, Places(s)))
  {
    if s.ScalarSource? {
      ScalarTakesItsYield(c, s, msg);
      OneAdds(c, s, msg);
    } else if HasObject(c, s, msg) {
      ObjectTakesItsYields(c, s, msg);
    } else {
      NothingElseAdds(c, s, msg, Places(s));
    }
  }

  lemma ScalarTakesItsYield(c: Config, s: Source, msg: Message)
    requires s.ScalarSource?
    ensures ScalarTakes(c, s, msg) == Adds(c, s, msg, 0)
  {
    if FoundInText(c, s, msg, 0).Some? {
      AcceptMakes(FoundInText(c, s, msg, 0).value, msg);
    }
  }

  lemma ObjectTakesItsYields(c: Config, s: Source, msg: Message)
    requires HasObject(c, s, msg)
    ensures JsonTakes(c, s, msg) == InTurn(AllAdd(c, s, msg, Places(s)))
  {
    ObjectTakesAll(c, s, msg);
    if s.mappings == [] {
      OneAdds(c, s, msg);
    } else {
      MappingsTakeTheirYields(c, s, msg, |s.mappings|);
    }
  }

  lemma ObjectTakesAll(c: Config, s: Source, msg: Message)
    requires HasObject(c, s, msg)
    ensures JsonTakes(c, s, msg) == FirstTake(c, s, msg, |s.mappings|)
  {
  }

  // ----- one message --------------------------------------------------------

  /** What a source adds: nothing, if the message does not reach it. */
  function SourceAdds(c: Config, s: Source, msg: Message): Taken {
    if Routed(s, msg) && !Ignored(s, msg) then InTurn(AllAdd(c, s, msg, Places(s))) else Taken([], None)
  }

  function SourcesAdd(c: Config, msg: Message, n: nat): (ts: seq<Taken>)
    requires n <= |c.sources|
    ensures |ts| == n
  {
    if n == 0 then [] else SourcesAdd(c, msg, n - 1) + [SourceAdds(c, c.sources[n - 1], msg)]
  }

  lemma TalliedGrows(c: Config, msg: Message, n: nat)
    requires 0 < n <= |c.sources|
    ensures Tallied(c, msg, n).taken == Then(Tallied(c, msg, n - 1).taken, SourceAdds(c, c.sources[n - 1], msg))
  {
    SourceTakesItsYields(c, c.sources[n - 1], msg);
  }

  lemma {:induction false} SourcesTakeTheirYields(c: Config, msg: Message, n: nat)
    requires n <= |c.sources|
    ensures Tallied(c, msg, n).taken == InTurn(SourcesAdd(c, msg, n))
  {
    if n == 0 {
    } else {
      SourcesTakeTheirYields(c, msg, n - 1);
      TalliedGrows(c, msg, n);
      InTurnAppends(SourcesAdd(c, msg, n - 1), SourceAdds(c, c.sources[n - 1], msg));
    }
  }

  /** The law of one message: what is taken from it is what the mappings of the sources
      it reaches yield, in source and mapping order, up to the first exception. */
  lemma MessageTakesItsYields(c: Config, msg: Message)
    ensures Accepted(c, msg).taken == InTurn(SourcesAdd(c, msg, |c.sources|))
  {
    SourcesTakeTheirYields(c, msg, |c.sources|);
  }

  /** The sources among the first `n` that ignore the message, because it is retained. */
  function Ignoring(c: Config, msg: Message, n: nat): nat
    requires n <= |c.sources|
  {
    if n == 0 then 0
    else
      var s := c.sources[n - 1];
      Ignoring(c, msg, n - 1) + if Routed(s, msg) && s.ignoreRetained && msg.retain then 1 else 0
  }

  /** The counter of ignored messages goes up once for each of them. */
  lemma {:induction false} IgnoredIsCounted(c: Config, msg: Message, n: nat)
    requires n <= |c.sources| && Tallied(c, msg, n).taken.raised.None?
    ensures Tallied(c, msg, n).ignored == Ignoring(c, msg, n)
  {
    if n == 0 {
    } else {
      AddedMeans(Tallied(c, msg, n - 1), Offered(c, c.sources[n - 1], msg));
      IgnoredIsCounted(c, msg, n - 1);
    }
  }
}
