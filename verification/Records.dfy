/**
  Assembling a record (observation/record.py): plausibility and encoding of the
  core fields, nesting by dotted path, the capped and sorted extra array.
*/
module Records {
  import Moments
  import opened Common
  import opened Powers
  import opened Strings
  import opened Quantities
  import opened Fields

  const MAX_EXTRA: nat := 64
  const OBSERVATION_NSID: string := "net.atmowx.observation"

  /** The key a reading is held under: a field of the table, or "extra:...". */
  datatype Target = Core(field: Field) | Extra(name: string)

  datatype Dimension =
    | TemperatureLike | Pressure | Speed | Length | PrecipitationIntensity | Distance
    | Ratio | Irradiance | Angle | Concentration | Dimensionless

  /** `parameter` is an extra's own name, without the prefix. */
  datatype Reading = Reading(
    target: Target, parameter: string, value: Float, dimension: Dimension, decimals: int,
    observedAt: int, receivedAt: int, source: string, height: Option<Float>)

  datatype Measurement = Measurement(parameter: string, value: Quantity, unit: string, height: Option<Quantity>)

  /** SI_UNIT of observation/units.py. */
  function SiUnit(d: Dimension): string {
    match d
    case TemperatureLike => "celsius"
    case Pressure => "hectopascal"
    case Speed => "metersPerSecond"
    case Length => "millimeters"
    case PrecipitationIntensity => "millimetersPerHour"
    case Distance => "meters"
    case Ratio => "percent"
    case Irradiance => "wattsPerSquareMeter"
    case Angle => "degrees"
    case Concentration => "microgramsPerCubicMeter"
    case Dimensionless => "index"
  }

  datatype Value = Text(text: string) | Whole(number: int) | Decimal(quantity: Quantity) | List(items: seq<Measurement>)

  datatype Node = Leaf(value: Value) | Dict(children: map<string, Node>)

  // ----- one core field -----------------------------------------------------

  datatype CoreResult = Encoded(value: Value) | BelowMinimum | AboveMaximum | Fails(error: EncodingError)

  /** Python's round(): to the nearest integer, halves to even. */
  function HalfEven(x: real): int {
    var n := x.Floor;
    var frac := x - n as real;
    if frac < 0.5 then n else if frac > 0.5 then n + 1 else if n % 2 == 0 then n else n + 1
  }

  /** value % 360 */
  function Wrapped(x: real): real {
    x - 360.0 * (x / 360.0).Floor as real
  }

  function EncodeCore(f: Field, value: real): CoreResult {
    var spec := Spec(f);
    if !spec.wraps && spec.minimum.Some? && value < spec.minimum.value as real then BelowMinimum
    else if !spec.wraps && spec.maximum.Some? && value > spec.maximum.value as real then AboveMaximum
    else
      var normalized := if spec.wraps then Wrapped(value) else value;
      if spec.encoding.AsInteger? then
        Encoded(Whole(if spec.wraps then HalfEven(normalized) % 360 else HalfEven(normalized)))
      else
        var q := Encode(Finite(normalized), spec.decimals);
        if q.Ok? then Encoded(Decimal(q.value)) else Fails(q.error)
  }

  /** Rounding cannot leave an interval with integer ends, and everything the range
      check lets by can be encoded. */
  lemma CoreFieldsStayPlausible(f: Field, value: real)
    ensures var r := EncodeCore(f, value);
      && !r.Fails?
      && (r.Encoded? && Spec(f).wraps ==> r.value.Whole? && 0 <= r.value.number < 360)
      && (r.Encoded? && !Spec(f).wraps && Spec(f).encoding.AsInteger? ==>
            r.value.Whole? && Spec(f).minimum.value <= r.value.number <= Spec(f).maximum.value)
      && (r.Encoded? && Spec(f).encoding.AsQuantity? ==>
            r.value.Decimal? && r.value.quantity.scale + Spec(f).decimals >= 0
            && Units(Quantity(Spec(f).minimum.value, 0), Spec(f).decimals)
               <= Units(r.value.quantity, Spec(f).decimals)
               <= Units(Quantity(Spec(f).maximum.value, 0), Spec(f).decimals))
  {
    var spec := Spec(f);
    if spec.wraps {
    } else if spec.minimum.value as real <= value <= spec.maximum.value as real {
      if spec.encoding.AsInteger? {
        HalfEvenWithin(value, spec.minimum.value, spec.maximum.value);
      } else {
        QuantityWithin(value, spec.minimum.value, spec.maximum.value, spec.decimals);
      }
    }
  }

  lemma HalfEvenWithin(x: real, lo: int, hi: int)
    requires lo as real <= x <= hi as real
    ensures lo <= HalfEven(x) <= hi
  {
  }

  lemma QuantityWithin(x: real, lo: int, hi: int, d: nat)
    requires lo as real <= x <= hi as real && -100 <= lo && hi <= 100000 && d <= 1
    ensures Encode(Finite(x), d).Ok?
    ensures var q := Encode(Finite(x), d).value;
      q.scale + d >= 0 && Units(Quantity(lo, 0), d) <= Units(q, d) <= Units(Quantity(hi, 0), d)
  {
    WholeSignificand(lo, d);
    WholeSignificand(hi, d);
    SignificandIsMonotone(lo as real, x, d);
    SignificandIsMonotone(x, hi as real, d);
    var n := Significand(x, d);
    assert Pow(10, 0) == 1 && Pow(10, 1) == 10;
    assert -1000 <= n <= 1000000;
    FoldShrinks(n, d);
    PowersOfTen();
    EncodedUnits(x, d);
  }

  lemma WholeSignificand(n: int, d: nat)
    ensures Significand(n as real, d) == Units(Quantity(n, 0), d)
  {
  }

  /** A wrapped direction is the reading's, rounded, up to whole turns. */
  lemma DirectionsKeepTheirAngle(f: Field, value: real) returns (turns: int)
    requires Spec(f).wraps
    ensures EncodeCore(f, value).Encoded? && EncodeCore(f, value).value.Whole?
    ensures Dist((EncodeCore(f, value).value.number + 360 * turns) as real, value) <= 0.5
  {
    var n := HalfEven(Wrapped(value));
    turns := (value / 360.0).Floor + n / 360;
    HalfEvenIsNearest(Wrapped(value));
    assert n == n % 360 + 360 * (n / 360);
    assert (n % 360 + 360 * turns) as real == n as real + 360.0 * (value / 360.0).Floor as real;
  }

  lemma HalfEvenIsNearest(x: real)
    ensures Dist(HalfEven(x) as real, x) <= 0.5
  {
  }

  lemma {:induction false} FoldShrinks(n: int, d: nat)
    ensures Abs(Fold(n, d).value) <= Abs(n)
    decreases d
  {
    if n == 0 || d == 0 || n % 10 != 0 {
    } else {
      FoldShrinks(n / 10, d - 1);
    }
  }

  // ----- nesting ------------------------------------------------------------

  /** `_set_path`: walk the dicts of the path, replacing whatever is not a dict. */
  function SetPath(t: map<string, Node>, path: seq<string>, v: Value): map<string, Node>
    requires path != []
    decreases |path|
  {
    if |path| == 1 then t[path[0] := Leaf(v)]
    else
      var existing := if path[0] in t && t[path[0]].Dict? then t[path[0]].children else map[];
      t[path[0] := Dict(SetPath(existing, path[1..], v))]
  }

  function Lookup(t: map<string, Node>, path: seq<string>): Option<Value>
    decreases |path|
  {
    if path == [] || path[0] !in t then None
    else match t[path[0]]
      case Leaf(v) => if |path| == 1 then Some(v) else None
      case Dict(c) => Lookup(c, path[1..])
  }

  /** Setting a path changes that path and clobbers only what leads through it or
      lies below it. */
  lemma {:induction false} SetPathIsExact(t: map<string, Node>, path: seq<string>, v: Value, q: seq<string>)
    requires path != []
    ensures Lookup(SetPath(t, path, v), q) ==
      if q == path then Some(v)
      else if IsPrefix(path, q) || IsPrefix(q, path) then None
      else Lookup(t, q)
    decreases |path|
  {
    if q == [] {
    } else if q[0] != path[0] {
      assert !IsPrefix(path, q) && !IsPrefix(q, path);
    } else if |path| > 1 {
      var existing := if path[0] in t && t[path[0]].Dict? then t[path[0]].children else map[];
      SetPathIsExact(existing, path[1..], v, q[1..]);
      Tails(path, q);
    } else {
      Tails(path, q);
    }
  }

  lemma Tails(p: seq<string>, q: seq<string>)
    requires p != [] && q != [] && p[0] == q[0]
    ensures p == q <==> p[1..] == q[1..]
    ensures IsPrefix(p, q) <==> IsPrefix(p[1..], q[1..])
    ensures IsPrefix(q, p) <==> IsPrefix(q[1..], p[1..])
  {
    assert p == [p[0]] + p[1..] && q == [q[0]] + q[1..];
    PrefixTails(p, q);
    PrefixTails(q, p);
  }

  lemma PrefixTails(p: seq<string>, q: seq<string>)
    requires p != [] && q != [] && p[0] == q[0]
    ensures IsPrefix(p, q) <==> IsPrefix(p[1..], q[1..])
  {
    if |p| <= |q| {
      assert q[..|p|] == [q[0]] + q[1..][..|p| - 1];
      assert p == [p[0]] + p[1..];
    }
  }

  // ----- the builder --------------------------------------------------------

  datatype Reason = TooLow | TooHigh | TooManyExtras

  /** The readings dict, in insertion order. */
  type Readings = seq<Reading>

  /** Each name once, as in a dict. */
  predicate DistinctNames(rs: Readings) {
    forall i, j :: 0 <= i < j < |rs| ==> rs[i].target != rs[j].target
  }

  datatype BuildResult = BuildResult(
    record: map<string, Node>, included: seq<Target>, rejected: seq<(Target, Reason)>)

  function Find(rs: Readings, t: Target): Option<Reading> {
    if rs == [] then None else if rs[0].target == t then Some(rs[0]) else Find(rs[1..], t)
  }

  /** What becomes of field `f`: None if it is absent or not finite. */
  function CoreOutcome(rs: Readings, f: Field): Option<CoreResult> {
    var r := Find(rs, Core(f));
    if r.None? || r.value.value.NonFinite? then None else Some(EncodeCore(f, r.value.value.value))
  }

  function AddCore(b: BuildResult, f: Field, o: Option<CoreResult>): BuildResult {
    if o.None? then b
    else match o.value
      case Encoded(v) => b.(record := SetPath(b.record, Path(f), v), included := b.included + [Core(f)])
      case BelowMinimum => b.(rejected := b.rejected + [(Core(f), TooLow)])
      case AboveMaximum => b.(rejected := b.rejected + [(Core(f), TooHigh)])
      case Fails(_) => b
  }

  function Header(station: string, observedAt: string): map<string, Node> {
    map["$type" := Leaf(Text(OBSERVATION_NSID)), "station" := Leaf(Text(station)),
        "observedAt" := Leaf(Text(observedAt))]
  }

  /** The record after the walk over `fs`. */
  function Cores(b: BuildResult, rs: Readings, fs: seq<Field>): BuildResult {
    if fs == [] then b
    else AddCore(Cores(b, rs, fs[..|fs| - 1]), fs[|fs| - 1], CoreOutcome(rs, fs[|fs| - 1]))
  }

  predicate IsExtra(r: Reading) {
    r.target.Extra? && r.value.Finite?
  }

  function Measure(r: Reading): Result<Measurement, EncodingError> {
    var v := Encode(r.value, r.decimals);
    if v.Err? then Err(v.error)
    else if r.height.None? then Ok(Measurement(r.parameter, v.value, SiUnit(r.dimension), None))
    else
      var h := Encode(r.height.value, 2);
      if h.Err? then Err(h.error) else Ok(Measurement(r.parameter, v.value, SiUnit(r.dimension), Some(h.value)))
  }

  datatype Extras = Extras(list: seq<Measurement>, included: seq<Target>, rejected: seq<(Target, Reason)>)

  function AddExtra(e: Extras, r: Reading): Result<Extras, EncodingError> {
    if !IsExtra(r) then Ok(e)
    else if |e.list| >= MAX_EXTRA then Ok(e.(rejected := e.rejected + [(r.target, TooManyExtras)]))
    else
      var m := Measure(r);
      if m.Err? then Err(m.error) else Ok(e.(list := e.list + [m.value], included := e.included + [r.target]))
  }

  /** The extras of `rs`, in the order of the dict, or the exception an encoding raises. */
  function Collect(rs: Readings): Result<Extras, EncodingError> {
    if rs == [] then Ok(Extras([], [], []))
    else
      var before := Collect(rs[..|rs| - 1]);
      if before.Err? then before else AddExtra(before.value, rs[|rs| - 1])
  }

  // ----- sorting ------------------------------------------------------------

  /** `<=` of Python strings. */
  predicate AtMost(a: string, b: string) {
    a == b || Less(a, b)
  }

  /** list.sort is stable: `m` goes behind everything it does not sort before. */
  function Insert(m: Measurement, sorted: seq<Measurement>): (r: seq<Measurement>)
    ensures |r| == |sorted| + 1
  {
    if sorted == [] then [m]
    else if AtMost(sorted[|sorted| - 1].parameter, m.parameter) then sorted + [m]
    else Insert(m, sorted[..|sorted| - 1]) + [sorted[|sorted| - 1]]
  }

  function SortByParameter(list: seq<Measurement>): (r: seq<Measurement>)
    ensures |r| == |list|
  {
    if list == [] then [] else Insert(list[|list| - 1], SortByParameter(list[..|list| - 1]))
  }

  function Build(station: string, observedAt: string, rs: Readings): Result<BuildResult, EncodingError> {
    var b := Cores(BuildResult(Header(station, observedAt), [], []), rs, FIELD_NAMES);
    var e := Collect(rs);
    if e.Err? then Err(e.error)
    else Ok(BuildResult(
      if e.value.list == [] then b.record else b.record["extra" := Leaf(List(SortByParameter(e.value.list)))],
      b.included + e.value.included, b.rejected + e.value.rejected))
  }

  method BuildObservation(station: string, observedAt: Moments.Moment, readings: Readings)
    returns (r: Result<BuildResult, EncodingError>)
    ensures r == Build(station, Moments.FormatObservedAt(observedAt), readings)
  {
    var b := BuildResult(Header(station, Moments.FormatObservedAt(observedAt)), [], []);
    ghost var start := b;
    for n := 0 to |FIELD_NAMES|
      invariant b == Cores(start, readings, FIELD_NAMES[..n])
    {
      var f := FIELD_NAMES[n];
      assert FIELD_NAMES[..n + 1][..n] == FIELD_NAMES[..n];
      var reading := Find(readings, Core(f));
      if reading.Some? && reading.value.value.Finite? {
        CoreFieldsStayPlausible(f, reading.value.value.value);
        var encoded := EncodeCore(f, reading.value.value.value);
        match encoded {
          case BelowMinimum => b := b.(rejected := b.rejected + [(Core(f), TooLow)]);
          case AboveMaximum => b := b.(rejected := b.rejected + [(Core(f), TooHigh)]);
          case Encoded(v) =>
            b := b.(record := SetPath(b.record, Path(f), v));
            b := b.(included := b.included + [Core(f)]);
        }
      }
    }
    assert FIELD_NAMES[..|FIELD_NAMES|] == FIELD_NAMES;
    var collected := CollectExtras(readings);
    if collected.Err? {
      return Err(collected.error);
    }
    var extra := collected.value;
    if extra.list != [] {
      b := b.(record := b.record["extra" := Leaf(List(SortByParameter(extra.list)))]);
    }
    return Ok(BuildResult(b.record, b.included + extra.included, b.rejected + extra.rejected));
  }

  /** The second loop of `build_observation`. */
  method CollectExtras(readings: Readings) returns (r: Result<Extras, EncodingError>)
    ensures r == Collect(readings)
  {
    var extra := Extras([], [], []);
    for n := 0 to |readings|
      invariant Collect(readings[..n]) == Ok(extra)
    {
      var reading := readings[n];
      assert readings[..n + 1][..n] == readings[..n];
      if IsExtra(reading) {
        if |extra.list| >= MAX_EXTRA {
          extra := extra.(rejected := extra.rejected + [(reading.target, TooManyExtras)]);
        } else {
          var measurement := Measure(reading);
          if measurement.Err? {
            FirstErrorStays(readings, n + 1);
            return Err(measurement.error);
          }
          extra := extra.(list := extra.list + [measurement.value], included := extra.included + [reading.target]);
        }
      }
    }
    assert readings[..|readings|] == readings;
    return Ok(extra);
  }

  lemma {:induction false} FirstErrorStays(rs: Readings, n: nat)
    requires n <= |rs| && Collect(rs[..n]).Err?
    ensures Collect(rs) == Collect(rs[..n])
    decreases |rs|
  {
    if n == |rs| {
      assert rs[..n] == rs;
    } else {
      var most := rs[..|rs| - 1];
      assert most[..n] == rs[..n];
      FirstErrorStays(most, n);
    }
  }

  // ----- what the record holds ----------------------------------------------

  /** The encoding of a field that made it into the record. */
  function CoreValue(rs: Readings, f: Field): Option<Value> {
    var o := CoreOutcome(rs, f);
    if o.Some? && o.value.Encoded? then Some(o.value.value) else None
  }

  ghost function FieldAt(p: seq<string>): Option<Field> {
    if exists f :: Path(f) == p then
      var f :| Path(f) == p;
      Some(f)
    else None
  }

  lemma FieldAtPath(f: Field)
    ensures FieldAt(Path(f)) == Some(f)
  {
    PathIsInjective(f, FieldAt(Path(f)).value);
  }

  lemma PathIsInjective(f: Field, g: Field)
    requires Path(f) == Path(g)
    ensures f == g
  {
    if f != g { NamesDiffer(f, g); }
  }

  function HeaderValue(station: string, observedAt: string, p: seq<string>): Option<Value> {
    if p == ["$type"] then Some(Text(OBSERVATION_NSID))
    else if p == ["station"] then Some(Text(station))
    else if p == ["observedAt"] then Some(Text(observedAt))
    else None
  }

  /** The flat content of a record built from the fields `fs`: at a field's path its
      encoding if it is one of them and was included, at `extra` the sorted list, at the header's keys the header. */
  ghost function Flat(station: string, observedAt: string, rs: Readings, fs: seq<Field>, list: seq<Measurement>,
                      p: seq<string>): Option<Value>
  {
    if FieldAt(p).Some? then if FieldAt(p).value in fs then CoreValue(rs, FieldAt(p).value) else None
    else if p == ["extra"] && list != [] then Some(List(SortByParameter(list)))
    else HeaderValue(station, observedAt, p)
  }

  /** The content of a whole record: the encodings of all fields that have one. */
  ghost function Content(station: string, observedAt: string, rs: Readings, list: seq<Measurement>,
                         p: seq<string>): Option<Value>
  {
    if FieldAt(p).Some? then CoreValue(rs, FieldAt(p).value)
    else if p == ["extra"] && list != [] then Some(List(SortByParameter(list)))
    else HeaderValue(station, observedAt, p)
  }

  lemma HeaderIsFlat(station: string, observedAt: string, p: seq<string>)
    ensures Lookup(Header(station, observedAt), p) == HeaderValue(station, observedAt, p)
  {
  }

  lemma {:induction false} CoresAreFlat(b: BuildResult, station: string, observedAt: string, rs: Readings,
                                        fs: seq<Field>, p: seq<string>)
    requires b.record == Header(station, observedAt)
    ensures Lookup(Cores(b, rs, fs).record, p) == Flat(station, observedAt, rs, fs, [], p)
    decreases |fs|
  {
    if fs == [] {
      HeaderIsFlat(station, observedAt, p);
      if FieldAt(p).Some? { PathsArePrefixFree(FieldAt(p).value, FieldAt(p).value); }
    } else {
      var f, init := fs[|fs| - 1], fs[..|fs| - 1];
      CoresAreFlat(b, station, observedAt, rs, init, p);
      assert fs == init + [f];
      if CoreValue(rs, f).Some? {
        SetPathIsExact(Cores(b, rs, init).record, Path(f), CoreValue(rs, f).value, p);
        FieldAtPath(f);
        if p != Path(f) && (IsPrefix(Path(f), p) || IsPrefix(p, Path(f))) { NothingElseOnThePath(f, p); }
      } else {
        FieldAtPath(f);
      }
    }
  }

  /** What a field's path is a prefix of, or has as a prefix, is no other entry. */
  lemma NothingElseOnThePath(f: Field, p: seq<string>)
    requires p != Path(f) && (IsPrefix(Path(f), p) || IsPrefix(p, Path(f)))
    ensures FieldAt(p).None? && p != ["$type"] && p != ["station"] && p != ["observedAt"] && p != ["extra"]
  {
    PathsArePrefixFree(f, f);
    if FieldAt(p).Some? {
      PathsArePrefixFree(f, FieldAt(p).value);
      PathsArePrefixFree(FieldAt(p).value, f);
    }
    if |p| == 1 && Own(p[0]) {
      OwnIsApart(f, p);
    }
  }

  lemma OwnIsApart(f: Field, p: seq<string>)
    requires |p| == 1 && Own(p[0])
    ensures !IsPrefix(Path(f), p) && !IsPrefix(p, Path(f))
  {
  }

  /** The record is a faithful nesting: looked up at any path whatever, it holds
      exactly the header, the included core fields and the sorted extras. */
  lemma RecordIsFaithful(station: string, observedAt: string, rs: Readings, p: seq<string>)
    requires Build(station, observedAt, rs).Ok?
    ensures Lookup(Build(station, observedAt, rs).value.record, p)
         == Content(station, observedAt, rs, Collect(rs).value.list, p)
  {
    NestingIsFlat(station, observedAt, rs, p);
    if FieldAt(p).Some? {
      FieldNamesAreAll(FieldAt(p).value);
    }
  }

  lemma NestingIsFlat(station: string, observedAt: string, rs: Readings, p: seq<string>)
    requires Build(station, observedAt, rs).Ok?
    ensures Lookup(Build(station, observedAt, rs).value.record, p)
         == Flat(station, observedAt, rs, FIELD_NAMES, Collect(rs).value.list, p)
  {
    var b := BuildResult(Header(station, observedAt), [], []);
    var list := Collect(rs).value.list;
    CoresAreFlat(b, station, observedAt, rs, FIELD_NAMES, p);
    if p != [] && p[0] == "extra" {
      CoresAreFlat(b, station, observedAt, rs, FIELD_NAMES, ["extra"]);
      ExtraIsNoField(p);
      if list != [] { assert p == [p[0]] + p[1..]; }
    }
  }

  lemma ExtraIsNoField(p: seq<string>)
    requires p != [] && p[0] == "extra"
    ensures FieldAt(p).None?
  {
  }

  // ----- the extra array ----------------------------------------------------

  lemma AtMostIsTotal(a: string, b: string)
    ensures AtMost(a, b) || AtMost(b, a)
    ensures AtMost(a, b) && AtMost(b, a) ==> a == b
  {
    LessIsTotal(a, b);
  }

  lemma AtMostIsTransitive(a: string, b: string, c: string)
    requires AtMost(a, b) && AtMost(b, c)
    ensures AtMost(a, c)
  {
    if Less(a, b) && Less(b, c) {
      LessIsTransitive(a, b, c);
    }
  }

  predicate Sorted(list: seq<Measurement>) {
    forall i, j :: 0 <= i < j < |list| ==> AtMost(list[i].parameter, list[j].parameter)
  }

  /** The measurements of one parameter, in order. */
  function Named(list: seq<Measurement>, parameter: string): seq<Measurement> {
    if list == [] then []
    else Named(list[..|list| - 1], parameter)
         + if list[|list| - 1].parameter == parameter then [list[|list| - 1]] else []
  }

  lemma {:induction false} InsertSorts(m: Measurement, sorted: seq<Measurement>)
    requires Sorted(sorted)
    ensures Sorted(Insert(m, sorted))
    ensures forall b :: (forall i :: 0 <= i < |sorted| ==> AtMost(sorted[i].parameter, b)) && AtMost(m.parameter, b) ==>
      forall i :: 0 <= i < |Insert(m, sorted)| ==> AtMost(Insert(m, sorted)[i].parameter, b)
  {
    if sorted == [] {
    } else {
      var last := sorted[|sorted| - 1];
      if AtMost(last.parameter, m.parameter) {
        forall i | 0 <= i < |sorted| ensures AtMost(sorted[i].parameter, m.parameter) {
          if i < |sorted| - 1 { AtMostIsTransitive(sorted[i].parameter, last.parameter, m.parameter); }
        }
      } else {
        AtMostIsTotal(last.parameter, m.parameter);
        InsertSorts(m, sorted[..|sorted| - 1]);
        AtMostIsTotal(last.parameter, last.parameter);
      }
    }
  }

  lemma {:induction false} InsertKeepsNamed(m: Measurement, sorted: seq<Measurement>, parameter: string)
    ensures Named(Insert(m, sorted), parameter) ==
      Named(sorted, parameter) + if m.parameter == parameter then [m] else []
  {
    if sorted == [] {
    } else {
      var last, init := sorted[|sorted| - 1], sorted[..|sorted| - 1];
      if AtMost(last.parameter, m.parameter) {
        assert (sorted + [m])[..|sorted|] == sorted;
      } else {
        InsertKeepsNamed(m, init, parameter);
        AtMostIsTotal(m.parameter, m.parameter);
        assert (Insert(m, init) + [last])[..|sorted|] == Insert(m, init);
      }
    }
  }

  /** The sort is a sort, a permutation and stable: ordered by parameter, and for
      each parameter the same measurements in the same order. */
  lemma {:induction false} SortIsStable(list: seq<Measurement>, parameter: string)
    ensures Sorted(SortByParameter(list))
    ensures Named(SortByParameter(list), parameter) == Named(list, parameter)
  {
    if list == [] {
    } else {
      var init := list[..|list| - 1];
      SortIsStable(init, parameter);
      InsertSorts(list[|list| - 1], SortByParameter(init));
      InsertKeepsNamed(list[|list| - 1], SortByParameter(init), parameter);
    }
  }

  /** The readings that ask for a place in the extra array, in the order of the dict. */
  function Candidates(rs: Readings): (c: Readings)
    ensures |c| <= |rs|
  {
    if rs == [] then []
    else Candidates(rs[..|rs| - 1]) + if IsExtra(rs[|rs| - 1]) then [rs[|rs| - 1]] else []
  }

  /** The array holds the first 64 finite extras, each as measured, and turns away
      the others; the build raises exactly if one of those 64 cannot be encoded. */
  lemma {:induction false} ExtrasAreTheFirst(rs: Readings)
    ensures var c := Candidates(rs);
      && (Collect(rs).Err? <==> exists i :: 0 <= i < |c| && i < MAX_EXTRA && Measure(c[i]).Err?)
      && (Collect(rs).Ok? ==> var e := Collect(rs).value;
            && |e.list| == |e.included| == (if |c| < MAX_EXTRA then |c| else MAX_EXTRA)
            && |e.rejected| == |c| - |e.list|
            && (forall i :: 0 <= i < |e.list| ==> Measure(c[i]) == Ok(e.list[i]) && e.included[i] == c[i].target)
            && (forall i :: 0 <= i < |e.rejected| ==> e.rejected[i] == (c[MAX_EXTRA + i].target, TooManyExtras)))
  {
    if rs == [] {
    } else {
      ExtrasAreTheFirst(rs[..|rs| - 1]);
      NextCandidate(rs);
    }
  }

  lemma NextCandidate(rs: Readings)
    requires rs != []
    ensures var c, d := Candidates(rs[..|rs| - 1]), Candidates(rs);
      |c| <= |d| <= |c| + 1 && (forall i :: 0 <= i < |c| ==> d[i] == c[i])
      && (|d| > |c| <==> IsExtra(rs[|rs| - 1])) && (|d| > |c| ==> d[|c|] == rs[|rs| - 1])
  {
  }

  // ----- every reading is somewhere -----------------------------------------

  function Times(ts: seq<Target>, t: Target): nat {
    if ts == [] then 0 else Times(ts[..|ts| - 1], t) + if ts[|ts| - 1] == t then 1 else 0
  }

  function Refusals(rs: seq<(Target, Reason)>, t: Target): nat {
    if rs == [] then 0 else Refusals(rs[..|rs| - 1], t) + if rs[|rs| - 1].0 == t then 1 else 0
  }

  function Position(f: Field): nat {
    match f
    case Temperature => 0 case DewPoint => 1 case RelativeHumidity => 2 case PressureStation => 3
    case PressureSeaLevel => 4 case WindSpeed => 5 case WindGust => 6 case WindDirection => 7
    case WindGustDirection => 8 case PrecipitationRate => 9 case PrecipitationHour => 10
    case PrecipitationDay => 11 case PrecipitationEvent => 12 case SolarIrradiance => 13 case UvIndex => 14
    case Visibility => 15 case SnowDepth => 16 case SoilTemperature => 17 case SoilMoisture => 18
    case PresentWeather => 19 case Pm1 => 20 case Pm25 => 21 case Pm10 => 22 case Ozone => 23
    case No2 => 24 case So2 => 25 case Co => 26
  }

  lemma PositionOf(i: nat)
    requires i < |FIELD_NAMES|
    ensures Position(FIELD_NAMES[i]) == i
  {
  }

  lemma {:induction false} TimesAdds(a: seq<Target>, b: seq<Target>, t: Target)
    ensures Times(a + b, t) == Times(a, t) + Times(b, t)
  {
    if b == [] {
      assert a + b == a;
    } else {
      assert (a + b)[..|a + b| - 1] == a + b[..|b| - 1];
      TimesAdds(a, b[..|b| - 1], t);
    }
  }

  lemma {:induction false} RefusalsAdd(a: seq<(Target, Reason)>, b: seq<(Target, Reason)>, t: Target)
    ensures Refusals(a + b, t) == Refusals(a, t) + Refusals(b, t)
  {
    if b == [] {
      assert a + b == a;
    } else {
      assert (a + b)[..|a + b| - 1] == a + b[..|b| - 1];
      RefusalsAdd(a, b[..|b| - 1], t);
    }
  }

  lemma AddCoreCounts(b: BuildResult, rs: Readings, f: Field, t: Target)
    ensures var c := AddCore(b, f, CoreOutcome(rs, f));
      Times(c.included, t) + Refusals(c.rejected, t) == Times(b.included, t) + Refusals(b.rejected, t)
        + if t == Core(f) && CoreOutcome(rs, f).Some? then 1 else 0
  {
    var o := CoreOutcome(rs, f);
    if o.Some? {
      CoreFieldsStayPlausible(f, Find(rs, Core(f)).value.value.value);
      TimesAdds(b.included, [Core(f)], t);
      RefusalsAdd(b.rejected, [(Core(f), TooLow)], t);
      RefusalsAdd(b.rejected, [(Core(f), TooHigh)], t);
    }
  }

  lemma LastCoreCounts(b: BuildResult, rs: Readings, fs: seq<Field>, t: Target)
    requires fs != []
    ensures var most, last := Cores(b, rs, fs[..|fs| - 1]), fs[|fs| - 1]; var c := Cores(b, rs, fs);
      Times(c.included, t) + Refusals(c.rejected, t) == Times(most.included, t) + Refusals(most.rejected, t)
        + if t == Core(last) && CoreOutcome(rs, last).Some? then 1 else 0
  {
    AddCoreCounts(Cores(b, rs, fs[..|fs| - 1]), rs, fs[|fs| - 1], t);
  }

  lemma {:induction false} CoresCount(b: BuildResult, rs: Readings, n: nat, t: Target)
    requires n <= |FIELD_NAMES| && b.included == [] && b.rejected == []
    ensures var c := Cores(b, rs, FIELD_NAMES[..n]);
      Times(c.included, t) + Refusals(c.rejected, t) ==
        if t.Core? && Position(t.field) < n && CoreOutcome(rs, t.field).Some? then 1 else 0
  {
    if n == 0 {
    } else {
      assert FIELD_NAMES[..n][..n - 1] == FIELD_NAMES[..n - 1];
      CoresCount(b, rs, n - 1, t);
      LastCoreCounts(b, rs, FIELD_NAMES[..n], t);
      PositionOf(n - 1);
      if t.Core? && Position(t.field) == n - 1 { SamePosition(t.field, FIELD_NAMES[n - 1]); }
    }
  }

  lemma SamePosition(f: Field, g: Field)
    requires Position(f) == Position(g)
    ensures f == g
  {
  }

  /** How many finite extra readings carry the name `t`: one at most, in a dict. */
  function Occurs(rs: Readings, t: Target): nat {
    if rs == [] then 0
    else Occurs(rs[..|rs| - 1], t) + if IsExtra(rs[|rs| - 1]) && rs[|rs| - 1].target == t then 1 else 0
  }

  lemma AddExtraCounts(e: Extras, r: Reading, t: Target)
    requires AddExtra(e, r).Ok?
    ensures var f := AddExtra(e, r).value;
      Times(f.included, t) + Refusals(f.rejected, t) == Times(e.included, t) + Refusals(e.rejected, t)
        + if IsExtra(r) && r.target == t then 1 else 0
  {
    if !IsExtra(r) {
    } else if |e.list| >= MAX_EXTRA {
      RefusalsAdd(e.rejected, [(r.target, TooManyExtras)], t);
      assert Refusals([(r.target, TooManyExtras)][..0], t) == 0;
    } else {
      TimesAdds(e.included, [r.target], t);
      assert Times([r.target][..0], t) == 0;
    }
  }

  lemma {:induction false} CollectCounts(rs: Readings, t: Target)
    requires Collect(rs).Ok?
    ensures Times(Collect(rs).value.included, t) + Refusals(Collect(rs).value.rejected, t) == Occurs(rs, t)
  {
    if rs == [] {
    } else {
      CollectCounts(rs[..|rs| - 1], t);
      AddExtraCounts(Collect(rs[..|rs| - 1]).value, rs[|rs| - 1], t);
    }
  }

  lemma {:induction false} OccursOnce(rs: Readings, t: Target)
    requires DistinctNames(rs) && t.Extra?
    ensures Occurs(rs, t) == if Find(rs, t).Some? && Find(rs, t).value.value.Finite? then 1 else 0
  {
    if rs == [] {
    } else {
      var init, r := rs[..|rs| - 1], rs[|rs| - 1];
      OccursOnce(init, t);
      FindLast(init, r, t);
      assert rs == init + [r];
      if r.target == t { AbsentBefore(init, t); }
    }
  }

  lemma {:induction false} FindLast(init: Readings, r: Reading, t: Target)
    ensures Find(init + [r], t)
         == if Find(init, t).Some? then Find(init, t) else if r.target == t then Some(r) else None
  {
    if init == [] {
      assert init + [r] == [r];
    } else {
      assert (init + [r])[1..] == init[1..] + [r];
      FindLast(init[1..], r, t);
    }
  }

  lemma {:induction false} AbsentBefore(rs: Readings, t: Target)
    requires forall i :: 0 <= i < |rs| ==> rs[i].target != t
    ensures Find(rs, t).None?
  {
    if rs == [] {
    } else {
      AbsentBefore(rs[1..], t);
    }
  }

  lemma {:induction false} CoreNeverOccurs(rs: Readings, t: Target)
    requires t.Core?
    ensures Occurs(rs, t) == 0
  {
    if rs == [] {
    } else {
      CoreNeverOccurs(rs[..|rs| - 1], t);
    }
  }

  function Finitely(r: Option<Reading>): nat {
    if r.Some? && r.value.value.Finite? then 1 else 0
  }

  lemma CoreSide(b: BuildResult, rs: Readings, t: Target)
    requires b.included == [] && b.rejected == []
    ensures var c := Cores(b, rs, FIELD_NAMES);
      Times(c.included, t) + Refusals(c.rejected, t) == if t.Core? then Finitely(Find(rs, t)) else 0
  {
    assert FIELD_NAMES[..|FIELD_NAMES|] == FIELD_NAMES;
    CoresCount(b, rs, |FIELD_NAMES|, t);
  }

  lemma ExtraSide(rs: Readings, t: Target)
    requires DistinctNames(rs) && Collect(rs).Ok?
    ensures Times(Collect(rs).value.included, t) + Refusals(Collect(rs).value.rejected, t)
         == if t.Extra? then Finitely(Find(rs, t)) else 0
  {
    CollectCounts(rs, t);
    if t.Core? { CoreNeverOccurs(rs, t); } else { OccursOnce(rs, t); }
  }

  /** Every finite reading is in exactly one of included and rejected, once; those
      that are not finite, and names nobody reported, are in neither. */
  lemma EveryReadingIsSomewhere(station: string, observedAt: string, rs: Readings, t: Target)
    requires DistinctNames(rs) && Build(station, observedAt, rs).Ok?
    ensures var b := Build(station, observedAt, rs).value;
      Times(b.included, t) + Refusals(b.rejected, t) == Finitely(Find(rs, t))
  {
    var start := BuildResult(Header(station, observedAt), [], []);
    var b, e := Cores(start, rs, FIELD_NAMES), Collect(rs).value;
    CoreSide(start, rs, t);
    ExtraSide(rs, t);
    TimesAdds(b.included, e.included, t);
    RefusalsAdd(b.rejected, e.rejected, t);
  }
}
