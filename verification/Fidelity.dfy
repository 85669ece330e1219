/**
  How far a record may be from the readings it is built from: which readings it takes,
  and how much rounding each of them can lose.
*/
module Fidelity {
  import opened Common
  import opened Powers
  import opened Quantities
  import opened Fields
  import opened Records

  // ----- one number ---------------------------------------------------------

  /** `q` is a canonical quantity within half a unit of `v` at `d` decimals. */
  predicate NearAt(q: Quantity, v: real, d: nat) {
    Canonical(q) && q.scale + d >= 0 && Dist(Units(q, d) as real, Scaled(v, d)) <= 0.5
  }

  /** `n` degrees and some whole turns are within half a degree of `v`. */
  predicate NearAngle(n: int, turns: int, v: real) {
    Dist((n + 360 * turns) as real, v) <= 0.5
  }

  /** A value of field `f` as near to `v` as the field's encoding comes. */
  ghost predicate Near(f: Field, out: Value, v: real) {
    if Spec(f).wraps then
      out.Whole? && 0 <= out.number < 360 && exists turns :: NearAngle(out.number, turns, v)
    else if Spec(f).encoding.AsInteger? then
      out.Whole? && Dist(out.number as real, v) <= 0.5
    else
      out.Decimal? && NearAt(out.quantity, v, Spec(f).decimals)
  }

  predicate Below(f: Field, v: real) {
    !Spec(f).wraps && v < Spec(f).minimum.value as real
  }

  predicate Above(f: Field, v: real) {
    !Spec(f).wraps && v > Spec(f).maximum.value as real
  }

  /** A field takes exactly what is in its range, whose ends belong to it, says on which
      side anything else is, and stays as near to what it takes as it can. */
  lemma EncodedExactlyWhen(f: Field, v: real)
    ensures var r := EncodeCore(f, v);
      && (r.BelowMinimum? <==> Below(f, v)) && (r.AboveMaximum? <==> Above(f, v))
      && (r.Encoded? <==> !Below(f, v) && !Above(f, v))
      && (r.Encoded? ==> Near(f, r.value, v))
  {
    CoreFieldsStayPlausible(f, v);
    if Spec(f).wraps {
      var turns := DirectionsKeepTheirAngle(f, v);
      assert NearAngle(EncodeCore(f, v).value.number, turns, v);
    } else if EncodeCore(f, v).Encoded? {
      PlainFieldIsNear(f, v);
    }
  }

  lemma PlainFieldIsNear(f: Field, v: real)
    requires !Spec(f).wraps && EncodeCore(f, v).Encoded?
    ensures Near(f, EncodeCore(f, v).value, v)
  {
    if Spec(f).encoding.AsInteger? {
      HalfEvenIsNearest(v);
    } else {
      EncodedUnits(v, Spec(f).decimals);
      EncodingIsFaithful(v, Spec(f).decimals);
    }
  }

  /** A whole number exactly between two goes to the even one, a decimal away from zero. */
  lemma TiesAreBroken(n: int)
    ensures HalfEven(n as real + 0.5) == (if n % 2 == 0 then n else n + 1)
    ensures HalfUp(n as real + 0.5) == (if n >= 0 then n + 1 else n)
  {
  }

  /** So 21.25 at one decimal is 21.3, and -0.5 without decimals is -1. */
  lemma TiesOfReadings()
    ensures Encode(Finite(21.25), 1) == Ok(Quantity(213, -1)) && Encode(Finite(-21.25), 1) == Ok(Quantity(-213, -1))
    ensures Encode(Finite(-0.5), 0) == Ok(Quantity(-1, 0))
  {
    PowersOfTen();
    assert Pow(10, 0) == 1 && Pow(10, 1) == 10;
    TiesAreBroken(212);
    TiesAreBroken(-213);
    TiesAreBroken(-1);
  }

  // ----- the core fields of a record ----------------------------------------

  /** In a dict the reading of a name is the one there is. */
  lemma {:induction false} FindIsTheOne(rs: Readings, i: nat)
    requires DistinctNames(rs) && i < |rs|
    ensures Find(rs, rs[i].target) == Some(rs[i])
  {
    if i > 0 {
      FindIsTheOne(rs[1..], i - 1);
    }
  }

  lemma {:induction false} NothingToFind(rs: Readings, t: Target)
    requires forall r :: r in rs ==> r.target != t
    ensures Find(rs, t) == None
  {
    if rs == [] {
    } else {
      NothingToFind(rs[1..], t);
    }
  }

  /** A reading of field `f` is in the record exactly if it is finite and in range, and
      what the record has at the field's path is then as near to it as can be. */
  lemma FieldHoldsItsReading(station: string, observedAt: string, rs: Readings, i: nat, f: Field)
    requires DistinctNames(rs) && i < |rs| && rs[i].target == Core(f) && Build(station, observedAt, rs).Ok?
    ensures var at, v := Lookup(Build(station, observedAt, rs).value.record, Path(f)), rs[i].value;
      && (at.Some? <==> v.Finite? && !Below(f, v.value) && !Above(f, v.value))
      && (at.Some? ==> Near(f, at.value, v.value))
  {
    AtThePath(station, observedAt, rs, f);
    ValueOfReading(rs, i, f);
  }

  lemma ValueOfReading(rs: Readings, i: nat, f: Field)
    requires DistinctNames(rs) && i < |rs| && rs[i].target == Core(f)
    ensures var o, v := CoreValue(rs, f), rs[i].value;
      && (o.Some? <==> v.Finite? && !Below(f, v.value) && !Above(f, v.value))
      && (o.Some? ==> Near(f, o.value, v.value))
  {
    FindIsTheOne(rs, i);
    if rs[i].value.Finite? {
      EncodedExactlyWhen(f, rs[i].value.value);
    }
  }

  /** A field nobody reported is not in the record. */
  lemma FieldWithoutReading(station: string, observedAt: string, rs: Readings, f: Field)
    requires Build(station, observedAt, rs).Ok? && forall r :: r in rs ==> r.target != Core(f)
    ensures Lookup(Build(station, observedAt, rs).value.record, Path(f)) == None
  {
    NothingToFind(rs, Core(f));
    AtThePath(station, observedAt, rs, f);
  }

  lemma AtThePath(station: string, observedAt: string, rs: Readings, f: Field)
    requires Build(station, observedAt, rs).Ok?
    ensures Lookup(Build(station, observedAt, rs).value.record, Path(f)) == CoreValue(rs, f)
  {
    RecordIsFaithful(station, observedAt, rs, Path(f));
    FieldAtPath(f);
  }

  // ----- refusals -----------------------------------------------------------

  function Refusal(r: CoreResult): Option<Reason> {
    if r.BelowMinimum? then Some(TooLow) else if r.AboveMaximum? then Some(TooHigh) else None
  }

  lemma CoreRefuses(b: BuildResult, g: Field, o: Option<CoreResult>, f: Field, reason: Reason)
    ensures (Core(f), reason) in AddCore(b, g, o).rejected <==>
      (Core(f), reason) in b.rejected || (f == g && o.Some? && Refusal(o.value) == Some(reason))
  {
  }

  /** What the walk over `fs` refuses. */
  lemma {:induction false} CoresRefuse(b: BuildResult, rs: Readings, fs: seq<Field>, f: Field, reason: Reason)
    requires b.rejected == []
    ensures (Core(f), reason) in Cores(b, rs, fs).rejected <==>
      f in fs && CoreOutcome(rs, f).Some? && Refusal(CoreOutcome(rs, f).value) == Some(reason)
  {
    if fs == [] {
    } else {
      var init, g := fs[..|fs| - 1], fs[|fs| - 1];
      CoresRefuse(b, rs, init, f, reason);
      CoreRefuses(Cores(b, rs, init), g, CoreOutcome(rs, g), f, reason);
      assert f in fs <==> f in init || f == g;
    }
  }

  lemma {:induction false} ExtrasRefuseNoField(rs: Readings, f: Field, reason: Reason)
    requires Collect(rs).Ok?
    ensures (Core(f), reason) !in Collect(rs).value.rejected
  {
    if rs == [] {
    } else {
      ExtrasRefuseNoField(rs[..|rs| - 1], f, reason);
    }
  }

  /** The side of the range on which a value is refused. */
  predicate OnSide(f: Field, v: real, reason: Reason) {
    match reason
    case TooLow => Below(f, v)
    case TooHigh => Above(f, v)
    case TooManyExtras => false
  }

  lemma RefusalMeans(f: Field, v: real, reason: Reason)
    ensures Refusal(EncodeCore(f, v)) == Some(reason) <==> OnSide(f, v, reason)
  {
    EncodedExactlyWhen(f, v);
  }

  /** A reading is refused as too low or too high exactly if it is. */
  lemma RefusedExactlyWhen(station: string, observedAt: string, rs: Readings, i: nat, f: Field, reason: Reason)
    requires DistinctNames(rs) && i < |rs| && rs[i].target == Core(f) && Build(station, observedAt, rs).Ok?
    ensures (Core(f), reason) in Build(station, observedAt, rs).value.rejected <==>
      rs[i].value.Finite? && OnSide(f, rs[i].value.value, reason)
  {
    FindIsTheOne(rs, i);
    RefusedByCores(station, observedAt, rs, f, reason);
    if rs[i].value.Finite? {
      RefusalMeans(f, rs[i].value.value, reason);
    }
  }

  lemma RefusedByCores(station: string, observedAt: string, rs: Readings, f: Field, reason: Reason)
    requires Build(station, observedAt, rs).Ok?
    ensures (Core(f), reason) in Build(station, observedAt, rs).value.rejected <==>
      CoreOutcome(rs, f).Some? && Refusal(CoreOutcome(rs, f).value) == Some(reason)
  {
    CoresRefuse(BuildResult(Header(station, observedAt), [], []), rs, FIELD_NAMES, f, reason);
    ExtrasRefuseNoField(rs, f, reason);
    FieldNamesAreAll(f);
  }

  // ----- the extra array ----------------------------------------------------

  /** What one extra reading becomes: its parameter, its value to half a unit at its own
      decimals, the unit of its dimension, its height to half a centimetre. */
  predicate MeasuredAs(r: Reading, m: Measurement) {
    && m.parameter == r.parameter && m.unit == SiUnit(r.dimension)
    && r.value.Finite? && 0 <= r.decimals <= 9 && NearAt(m.value, r.value.value, r.decimals)
    && (m.height.Some? <==> r.height.Some?)
    && (m.height.Some? ==> r.height.value.Finite? && NearAt(m.height.value, r.height.value.value, 2))
  }

  lemma MeasureIsNear(r: Reading)
    requires Measure(r).Ok?
    ensures MeasuredAs(r, Measure(r).value)
  {
    EncodedUnits(r.value.value, r.decimals);
    EncodingIsFaithful(r.value.value, r.decimals);
    if r.height.Some? {
      EncodedUnits(r.height.value.value, 2);
      EncodingIsFaithful(r.height.value.value, 2);
    }
  }

  /** The array holds the first 64 finite extras, each as near as its decimals allow. */
  lemma ExtrasAreNear(rs: Readings, i: nat)
    requires Collect(rs).Ok? && i < |Collect(rs).value.list|
    ensures i < |Candidates(rs)| && MeasuredAs(Candidates(rs)[i], Collect(rs).value.list[i])
  {
    ExtrasAreTheFirst(rs);
    MeasureIsNear(Candidates(rs)[i]);
  }
}
