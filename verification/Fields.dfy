/** The measurement fields of net.atmowx.observation (observation/fields.py). */
module Fields {
  import opened Common

  // One constructor per row of the table, in declaration order.
  datatype Field =
    | Temperature | DewPoint | RelativeHumidity | PressureStation | PressureSeaLevel
    | WindSpeed | WindGust | WindDirection | WindGustDirection
    | PrecipitationRate | PrecipitationHour | PrecipitationDay | PrecipitationEvent
    | SolarIrradiance | UvIndex | Visibility | SnowDepth | SoilTemperature | SoilMoisture | PresentWeather
    | Pm1 | Pm25 | Pm10 | Ozone | No2 | So2 | Co

  datatype Encoding = AsQuantity | AsInteger

  datatype FieldSpec = FieldSpec(
    encoding: Encoding, decimals: nat, minimum: Option<int>, maximum: Option<int>, wraps: bool)

  const FIELD_NAMES: seq<Field> := [
    Temperature, DewPoint, RelativeHumidity, PressureStation, PressureSeaLevel,
    WindSpeed, WindGust, WindDirection, WindGustDirection,
    PrecipitationRate, PrecipitationHour, PrecipitationDay, PrecipitationEvent,
    SolarIrradiance, UvIndex, Visibility, SnowDepth, SoilTemperature, SoilMoisture, PresentWeather,
    Pm1, Pm25, Pm10, Ozone, No2, So2, Co]

  function Measured(decimals: nat, minimum: int, maximum: int): FieldSpec {
    FieldSpec(AsQuantity, decimals, Some(minimum), Some(maximum), false)
  }

  function Spec(f: Field): (s: FieldSpec)
    ensures s.wraps || (s.minimum.Some? && s.maximum.Some? && s.minimum.value <= s.maximum.value
                        && -100 <= s.minimum.value && s.maximum.value <= 100000)
    ensures s.decimals <= 1 && (s.wraps ==> s.encoding.AsInteger?)
  {
    match f
    case Temperature => Measured(1, -90, 60)
    case DewPoint => Measured(1, -90, 60)
    case RelativeHumidity => Measured(0, 0, 100)
    case PressureStation => Measured(1, 300, 1100)
    case PressureSeaLevel => Measured(1, 850, 1100)
    case WindSpeed => Measured(1, 0, 150)
    case WindGust => Measured(1, 0, 150)
    case WindDirection => FieldSpec(AsInteger, 0, None, None, true)
    case WindGustDirection => FieldSpec(AsInteger, 0, None, None, true)
    case PrecipitationRate => Measured(1, 0, 2000)
    case PrecipitationHour => Measured(1, 0, 2000)
    case PrecipitationDay => Measured(1, 0, 5000)
    case PrecipitationEvent => Measured(1, 0, 5000)
    case SolarIrradiance => Measured(0, 0, 2000)
    case UvIndex => Measured(0, 0, 20)
    case Visibility => Measured(0, 0, 100000)
    case SnowDepth => Measured(0, 0, 20000)
    case SoilTemperature => Measured(1, -50, 80)
    case SoilMoisture => Measured(0, 0, 100)
    case PresentWeather => FieldSpec(AsInteger, 0, Some(0), Some(99), false)
    case Co => Measured(1, 0, 100000)
    case _ => Measured(1, 0, 10000)
  }

  /** The last segment of the dotted path. */
  function Name(f: Field): string {
    match f
    case Temperature => "temperature"
    case DewPoint => "dewPoint"
    case RelativeHumidity => "relativeHumidity"
    case PressureStation => "pressureStation"
    case PressureSeaLevel => "pressureSeaLevel"
    case WindSpeed => "speed"
    case WindGust => "gust"
    case WindDirection => "direction"
    case WindGustDirection => "gustDirection"
    case PrecipitationRate => "rate"
    case PrecipitationHour => "hour"
    case PrecipitationDay => "day"
    case PrecipitationEvent => "event"
    case SolarIrradiance => "solarIrradiance"
    case UvIndex => "uvIndex"
    case Visibility => "visibility"
    case SnowDepth => "snowDepth"
    case SoilTemperature => "soilTemperature"
    case SoilMoisture => "soilMoisture"
    case PresentWeather => "presentWeather"
    case Pm1 => "pm1"
    case Pm25 => "pm25"
    case Pm10 => "pm10"
    case Ozone => "ozone"
    case No2 => "no2"
    case So2 => "so2"
    case Co => "co"
  }

  /** What comes before the dot. */
  function Group(f: Field): Option<string> {
    if f.WindSpeed? || f.WindGust? || f.WindDirection? || f.WindGustDirection? then Some("wind")
    else if f.PrecipitationRate? || f.PrecipitationHour? || f.PrecipitationDay? || f.PrecipitationEvent?
    then Some("precipitation")
    else if f.Pm1? || f.Pm25? || f.Pm10? || f.Ozone? || f.No2? || f.So2? || f.Co? then Some("airQuality")
    else None
  }

  /** The dotted path, split at its dots. */
  function Path(f: Field): (p: seq<string>)
    ensures p != [] && p[|p| - 1] == Name(f)
  {
    if Group(f).Some? then [Group(f).value, Name(f)] else [Name(f)]
  }

  /** The keys of a record that are not fields. */
  predicate Own(k: string) {
    k == "$type" || k == "station" || k == "observedAt" || k == "extra"
  }

  predicate IsPrefix(p: seq<string>, q: seq<string>) {
    |p| <= |q| && q[..|p|] == p
  }

  /** Enough of a word to tell all of them apart without comparing texts: its length,
      its first character and its last but one. */
  datatype Mark = Mark(length: nat, first: char, nextToLast: char)

  function MarkOf(s: string): Mark {
    if |s| < 2 then Mark(|s|, ' ', ' ') else Mark(|s|, s[0], s[|s| - 2])
  }

  /** MarkOf(Name(f)), written out. */
  function NameMark(f: Field): Mark {
    match f
    case Temperature => Mark(11, 't', 'r')
    case DewPoint => Mark(8, 'd', 'n')
    case RelativeHumidity => Mark(16, 'r', 't')
    case PressureStation => Mark(15, 'p', 'o')
    case PressureSeaLevel => Mark(16, 'p', 'e')
    case WindSpeed => Mark(5, 's', 'e')
    case WindGust => Mark(4, 'g', 's')
    case WindDirection => Mark(9, 'd', 'o')
    case WindGustDirection => Mark(13, 'g', 'o')
    case PrecipitationRate => Mark(4, 'r', 't')
    case PrecipitationHour => Mark(4, 'h', 'u')
    case PrecipitationDay => Mark(3, 'd', 'a')
    case PrecipitationEvent => Mark(5, 'e', 'n')
    case SolarIrradiance => Mark(15, 's', 'c')
    case UvIndex => Mark(7, 'u', 'e')
    case Visibility => Mark(10, 'v', 't')
    case SnowDepth => Mark(9, 's', 't')
    case SoilTemperature => Mark(15, 's', 'r')
    case SoilMoisture => Mark(12, 's', 'r')
    case PresentWeather => Mark(14, 'p', 'e')
    case Pm1 => Mark(3, 'p', 'm')
    case Pm25 => Mark(4, 'p', '2')
    case Pm10 => Mark(4, 'p', '1')
    case Ozone => Mark(5, 'o', 'n')
    case No2 => Mark(3, 'n', 'o')
    case So2 => Mark(3, 's', 'o')
    case Co => Mark(2, 'c', 'c')
  }

  lemma NameHasMark(f: Field)
    ensures MarkOf(Name(f)) == NameMark(f)
  {
  }

  lemma NamesDiffer(f: Field, g: Field)
    requires f != g
    ensures Name(f) != Name(g)
  {
    MarksDiffer(f, g);
    NameHasMark(f);
    NameHasMark(g);
  }

  lemma MarksDiffer(f: Field, g: Field)
    requires f != g
    ensures NameMark(f) != NameMark(g)
  {
  }

  lemma WordMarks()
    ensures
      && MarkOf("wind") == Mark(4, 'w', 'n')
      && MarkOf("precipitation") == Mark(13, 'p', 'o')
      && MarkOf("airQuality") == Mark(10, 'a', 't')
    ensures
      && MarkOf("$type") == Mark(5, '$', 'p')
      && MarkOf("station") == Mark(7, 's', 'o')
      && MarkOf("observedAt") == Mark(10, 'o', 'A')
      && MarkOf("extra") == Mark(5, 'e', 'r')
  {
  }

  /** A name outside the groups is neither a group nor a key of the record itself. */
  lemma TopNames(f: Field)
    ensures Group(f).None? ==>
      Name(f) != "wind" && Name(f) != "precipitation" && Name(f) != "airQuality" && !Own(Name(f))
    ensures Group(f).Some? ==> !Own(Group(f).value)
  {
    NameHasMark(f);
    WordMarks();
  }

  /** No field's path leads through another's, nor through the record's own keys. */
  lemma PathsArePrefixFree(f: Field, g: Field)
    ensures f != g ==> !IsPrefix(Path(f), Path(g))
    ensures !Own(Path(f)[0])
  {
    TopNames(f);
    if f != g {
      NamesDiffer(f, g);
    }
  }

  /** The walk over FIELD_NAMES meets every field. */
  lemma FieldNamesAreAll(f: Field)
    ensures f in FIELD_NAMES
  {
  }
}
