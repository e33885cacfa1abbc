/**
 The conversion registry: the eighteen named conversions, each bound to one
 formula and the label of the unit it produces, and the eight categories the
 user picks conversion names from.

 A Python function object in the registry is modelled by a `Kind`, one
 constructor per formula, and calling it by `Apply`.
 */
module Registry {
  import opened Wrappers
  import F = Formulas
  import Text

  datatype Kind =
    | KmToMiles | MilesToKm
    | KgToLb | LbToKg
    | InchesToCm | CmToInches
    | CelsiusToFahrenheit | FahrenheitToCelsius
    | LitersToGallons | GallonsToLiters
    | SqftToSqm | SqmToSqft
    | KmhToMph | MphToKmh
    | BarToPsi | PsiToBar
    | MinutesToSeconds | SecondsToMinutes

  /** Calls the formula a kind stands for. */
  function Apply(k: Kind, x: real): real {
    match k
    case KmToMiles => F.KmToMiles(x)
    case MilesToKm => F.MilesToKm(x)
    case KgToLb => F.KgToLb(x)
    case LbToKg => F.LbToKg(x)
    case InchesToCm => F.InchesToCm(x)
    case CmToInches => F.CmToInches(x)
    case CelsiusToFahrenheit => F.CelsiusToFahrenheit(x)
    case FahrenheitToCelsius => F.FahrenheitToCelsius(x)
    case LitersToGallons => F.LitersToGallons(x)
    case GallonsToLiters => F.GallonsToLiters(x)
    case SqftToSqm => F.SqftToSqm(x)
    case SqmToSqft => F.SqmToSqft(x)
    case KmhToMph => F.KmhToMph(x)
    case MphToKmh => F.MphToKmh(x)
    case BarToPsi => F.BarToPsi(x)
    case PsiToBar => F.PsiToBar(x)
    case MinutesToSeconds => F.MinutesToSeconds(x)
    case SecondsToMinutes => F.SecondsToMinutes(x)
  }

  /** The conversion in the opposite direction between the same two units. */
  function Inverse(k: Kind): Kind {
    match k
    case KmToMiles => MilesToKm
    case MilesToKm => KmToMiles
    case KgToLb => LbToKg
    case LbToKg => KgToLb
    case InchesToCm => CmToInches
    case CmToInches => InchesToCm
    case CelsiusToFahrenheit => FahrenheitToCelsius
    case FahrenheitToCelsius => CelsiusToFahrenheit
    case LitersToGallons => GallonsToLiters
    case GallonsToLiters => LitersToGallons
    case SqftToSqm => SqmToSqft
    case SqmToSqft => SqftToSqm
    case KmhToMph => MphToKmh
    case MphToKmh => KmhToMph
    case BarToPsi => PsiToBar
    case PsiToBar => BarToPsi
    case MinutesToSeconds => SecondsToMinutes
    case SecondsToMinutes => MinutesToSeconds
  }

  predicate IsTemperature(k: Kind) {
    k == CelsiusToFahrenheit || k == FahrenheitToCelsius
  }

  /*
   Reference description of every formula as a straight line `Slope * x + Offset`,
   written independently of the formulas' own shapes.
   */

  function Slope(k: Kind): real {
    match k
    case MilesToKm | MphToKmh => 1.609
    case KmToMiles | KmhToMph => 1000.0 / 1609.0
    case KgToLb => 2.205
    case LbToKg => 1000.0 / 2205.0
    case InchesToCm => 2.54
    case CmToInches => 100.0 / 254.0
    case CelsiusToFahrenheit => 1.8
    case FahrenheitToCelsius => 5.0 / 9.0
    case LitersToGallons => 0.264172
    case GallonsToLiters => 1000000.0 / 264172.0
    case SqftToSqm => 0.092903
    case SqmToSqft => 1000000.0 / 92903.0
    case BarToPsi => 14.5038
    case PsiToBar => 10000.0 / 145038.0
    case MinutesToSeconds => 60.0
    case SecondsToMinutes => 1.0 / 60.0
  }

  function Offset(k: Kind): real {
    match k
    case CelsiusToFahrenheit => 32.0
    case FahrenheitToCelsius => -160.0 / 9.0
    case _ => 0.0
  }

  /** Every formula is the straight line its slope and offset describe, rising, through the origin unless it is a temperature one. */
  lemma ApplyIsAffine(k: Kind, x: real)
    ensures Apply(k, x) == Slope(k) * x + Offset(k)
    ensures Slope(k) > 0.0
    ensures Offset(k) == 0.0 <==> !IsTemperature(k)
  {
  }

  /** Inverse pairs the kinds up: it is an involution without fixed points and keeps the unit family. */
  lemma InverseIsInvolution(k: Kind)
    ensures Inverse(Inverse(k)) == k
    ensures Inverse(k) != k
    ensures IsTemperature(Inverse(k)) == IsTemperature(k)
  {
  }

  /** Converting and converting back returns the input exactly. */
  lemma InverseRoundTrip(k: Kind, x: real)
    ensures Apply(Inverse(k), Apply(k, x)) == x
  {
    match k
    case KmToMiles => F.KmMilesInverse(x);
    case MilesToKm => F.KmMilesInverse(x);
    case KgToLb => F.KgLbInverse(x);
    case LbToKg => F.KgLbInverse(x);
    case InchesToCm => F.InchesCmInverse(x);
    case CmToInches => F.InchesCmInverse(x);
    case CelsiusToFahrenheit => F.CelsiusFahrenheitInverse(x);
    case FahrenheitToCelsius => F.CelsiusFahrenheitInverse(x);
    case LitersToGallons => F.LitersGallonsInverse(x);
    case GallonsToLiters => F.LitersGallonsInverse(x);
    case SqftToSqm => F.SqftSqmInverse(x);
    case SqmToSqft => F.SqftSqmInverse(x);
    case KmhToMph => F.KmhMphInverse(x);
    case MphToKmh => F.KmhMphInverse(x);
    case BarToPsi => F.BarPsiInverse(x);
    case PsiToBar => F.BarPsiInverse(x);
    case MinutesToSeconds => F.MinutesSecondsInverse(x);
    case SecondsToMinutes => F.MinutesSecondsInverse(x);
  }

  /** Every conversion except the two temperature ones is linear. */
  lemma NonTemperatureIsLinear(k: Kind, a: real, b: real, c: real)
    requires !IsTemperature(k)
    ensures Apply(k, 0.0) == 0.0
    ensures Apply(k, a + b) == Apply(k, a) + Apply(k, b)
    ensures Apply(k, c * a) == c * Apply(k, a)
  {
    NonTemperatureIsAdditive(k, a, b);
    NonTemperatureIsHomogeneous(k, c, a);
  }

  /* The case splits below go one formula at a time: each is multiplication or division by a fixed ratio. */

  lemma NonTemperatureIsAdditive(k: Kind, a: real, b: real)
    requires !IsTemperature(k)
    ensures Apply(k, a + b) == Apply(k, a) + Apply(k, b)
  {
    match k {
      case KmToMiles =>
      case MilesToKm =>
      case KgToLb =>
      case LbToKg =>
      case InchesToCm =>
      case CmToInches =>
      case LitersToGallons =>
      case GallonsToLiters =>
      case SqftToSqm =>
      case SqmToSqft =>
      case KmhToMph =>
      case MphToKmh =>
      case BarToPsi =>
      case PsiToBar =>
      case MinutesToSeconds =>
      case SecondsToMinutes =>
    }
  }

  lemma NonTemperatureIsHomogeneous(k: Kind, c: real, a: real)
    requires !IsTemperature(k)
    ensures Apply(k, c * a) == c * Apply(k, a)
  {
    match k {
      case KmToMiles =>
      case MilesToKm =>
      case KgToLb =>
      case LbToKg =>
      case InchesToCm =>
      case CmToInches =>
      case LitersToGallons =>
      case GallonsToLiters =>
      case SqftToSqm =>
      case SqmToSqft =>
      case KmhToMph =>
      case MphToKmh =>
      case BarToPsi =>
      case PsiToBar =>
      case MinutesToSeconds =>
      case SecondsToMinutes =>
    }
  }

  /** The temperature conversions are affine but not linear: they move zero. */
  lemma TemperatureIsAffine(k: Kind, a: real, b: real)
    requires IsTemperature(k)
    ensures Apply(k, 0.0) != 0.0
    ensures Apply(k, a + b) == Apply(k, a) + Apply(k, b) - Apply(k, 0.0)
  {
    ApplyIsAffine(k, 0.0);
    ApplyIsAffine(k, a);
    ApplyIsAffine(k, b);
    ApplyIsAffine(k, a + b);
  }

  /** Every conversion is strictly increasing, so it preserves and reflects order. */
  lemma StrictlyIncreasing(k: Kind, a: real, b: real)
    ensures a < b <==> Apply(k, a) < Apply(k, b)
    ensures a == b <==> Apply(k, a) == Apply(k, b)
  {
    ApplyIsAffine(k, a);
    ApplyIsAffine(k, b);
    var s := Slope(k);
    if a < b {
      assert s * a < s * b;
    } else if b < a {
      assert s * b < s * a;
    }
  }

  /** The registry's value for one name: the formula and the unit label it prints. */
  datatype Entry = Entry(kind: Kind, unit: string)

  /** The name-to-formula registry of the Convert action. */
  const Conversions: map<string, Entry> := map[
    "Kilometers to Miles" := Entry(KmToMiles, "miles"),
    "Miles to Kilometers" := Entry(MilesToKm, "kilometers"),
    "Kilograms to Pounds" := Entry(KgToLb, "pounds"),
    "Pounds to Kilograms" := Entry(LbToKg, "kilograms"),
    "Inches to Centimeters" := Entry(InchesToCm, "centimeters"),
    "Centimeters to Inches" := Entry(CmToInches, "inches"),
    "Celsius to Fahrenheit" := Entry(CelsiusToFahrenheit, "°F"),
    "Fahrenheit to Celsius" := Entry(FahrenheitToCelsius, "°C"),
    "Liters to Gallons" := Entry(LitersToGallons, "gallons"),
    "Gallons to Liters" := Entry(GallonsToLiters, "liters"),
    "Square Feet to Square Meters" := Entry(SqftToSqm, "square meters"),
    "Square Meters to Square Feet" := Entry(SqmToSqft, "square feet"),
    "Kilometers per hour to Miles per hour" := Entry(KmhToMph, "mph"),
    "Miles per hour to Kilometers per hour" := Entry(MphToKmh, "km/h"),
    "Bar to PSI" := Entry(BarToPsi, "psi"),
    "PSI to Bar" := Entry(PsiToBar, "bar"),
    "Minutes to Seconds" := Entry(MinutesToSeconds, "seconds"),
    "Seconds to Minutes" := Entry(SecondsToMinutes, "minutes")
  ]

  /** The registry name under which each formula is filed. */
  function NameOf(k: Kind): string {
    match k
    case KmToMiles => "Kilometers to Miles"
    case MilesToKm => "Miles to Kilometers"
    case KgToLb => "Kilograms to Pounds"
    case LbToKg => "Pounds to Kilograms"
    case InchesToCm => "Inches to Centimeters"
    case CmToInches => "Centimeters to Inches"
    case CelsiusToFahrenheit => "Celsius to Fahrenheit"
    case FahrenheitToCelsius => "Fahrenheit to Celsius"
    case LitersToGallons => "Liters to Gallons"
    case GallonsToLiters => "Gallons to Liters"
    case SqftToSqm => "Square Feet to Square Meters"
    case SqmToSqft => "Square Meters to Square Feet"
    case KmhToMph => "Kilometers per hour to Miles per hour"
    case MphToKmh => "Miles per hour to Kilometers per hour"
    case BarToPsi => "Bar to PSI"
    case PsiToBar => "PSI to Bar"
    case MinutesToSeconds => "Minutes to Seconds"
    case SecondsToMinutes => "Seconds to Minutes"
  }

  /** One category of the picker: its title and the conversion names it offers, in display order. */
  datatype Category = Category(title: string, options: seq<string>)

  /** The categories, in the order the picker lists them. */
  const Categories: seq<Category> := [
    Category("📏 Length", ["Kilometers to Miles", "Miles to Kilometers", "Inches to Centimeters", "Centimeters to Inches"]),
    Category("⚖️ Weight", ["Kilograms to Pounds", "Pounds to Kilograms"]),
    Category("🌡️ Temperature", ["Celsius to Fahrenheit", "Fahrenheit to Celsius"]),
    Category("🧊 Volume", ["Liters to Gallons", "Gallons to Liters"]),
    Category("📐 Area", ["Square Feet to Square Meters", "Square Meters to Square Feet"]),
    Category("🚗 Speed", ["Kilometers per hour to Miles per hour", "Miles per hour to Kilometers per hour"]),
    Category("⚙️ Pressure", ["Bar to PSI", "PSI to Bar"]),
    Category("⏳ Time", ["Minutes to Seconds", "Seconds to Minutes"])
  ]

  /** A name some category offers. */
  predicate Offered(name: string) {
    exists i :: 0 <= i < |Categories| && name in Categories[i].options
  }

  /** The registry holds formula `k` under its name. */
  ghost predicate Registered(k: Kind) {
    NameOf(k) in Conversions && Conversions[NameOf(k)].kind == k
  }

  /** Each formula is registered under its name. */
  lemma NameOfRegistered(k: Kind)
    ensures NameOf(k) in Conversions && Conversions[NameOf(k)].kind == k
  {
    match k {
      case KmToMiles | MilesToKm => KilometersMilesRegistered();
      case InchesToCm | CmToInches => InchesCentimetersRegistered();
      case KgToLb | LbToKg => WeightRegistered();
      case CelsiusToFahrenheit | FahrenheitToCelsius => TemperatureRegistered();
      case LitersToGallons | GallonsToLiters => VolumeRegistered();
      case SqftToSqm | SqmToSqft => AreaRegistered();
      case KmhToMph | MphToKmh => SpeedRegistered();
      case BarToPsi | PsiToBar => PressureRegistered();
      case MinutesToSeconds | SecondsToMinutes => TimeRegistered();
    }
  }

  /* One lemma per pair of formulas, which keeps each lookup in the registry literal small. */

  lemma KilometersMilesRegistered()
    ensures Registered(KmToMiles) && Registered(MilesToKm)
  {
  }

  lemma InchesCentimetersRegistered()
    ensures Registered(InchesToCm) && Registered(CmToInches)
  {
  }

  lemma WeightRegistered()
    ensures Registered(KgToLb) && Registered(LbToKg)
  {
  }

  lemma TemperatureRegistered()
    ensures Registered(CelsiusToFahrenheit) && Registered(FahrenheitToCelsius)
  {
  }

  lemma VolumeRegistered()
    ensures Registered(LitersToGallons) && Registered(GallonsToLiters)
  {
  }

  lemma AreaRegistered()
    ensures Registered(SqftToSqm) && Registered(SqmToSqft)
  {
  }

  lemma SpeedRegistered()
    ensures Registered(KmhToMph) && Registered(MphToKmh)
  {
  }

  lemma PressureRegistered()
    ensures Registered(BarToPsi) && Registered(PsiToBar)
  {
  }

  lemma TimeRegistered()
    ensures Registered(MinutesToSeconds) && Registered(SecondsToMinutes)
  {
  }


  /** Each registered name is the name of the formula it is registered with. */
  lemma RegisteredNameOf(name: string)
    requires name in Conversions
    ensures NameOf(Conversions[name].kind) == name
  {
    assert name in {NameOf(KmToMiles), NameOf(MilesToKm), NameOf(KgToLb), NameOf(LbToKg), NameOf(InchesToCm), NameOf(CmToInches), NameOf(CelsiusToFahrenheit), NameOf(FahrenheitToCelsius), NameOf(LitersToGallons), NameOf(GallonsToLiters), NameOf(SqftToSqm), NameOf(SqmToSqft), NameOf(KmhToMph), NameOf(MphToKmh), NameOf(BarToPsi), NameOf(PsiToBar), NameOf(MinutesToSeconds), NameOf(SecondsToMinutes)};
    forall k {
      NameOfRegistered(k);
    }
  }

  /** The registry files each of the eighteen formulas under exactly one name: names and kinds are in bijection. */
  lemma RegistryIsBijection()
    ensures forall k :: NameOf(k) in Conversions && Conversions[NameOf(k)].kind == k
    ensures forall name :: name in Conversions ==> NameOf(Conversions[name].kind) == name
  {
    forall k {
      NameOfRegistered(k);
    }
    forall name | name in Conversions {
      RegisteredNameOf(name);
    }
  }

  /** The position in `Categories` of the category that offers a formula. */
  function CategoryOf(k: Kind): nat {
    match k
    case KmToMiles | MilesToKm | InchesToCm | CmToInches => 0
    case KgToLb | LbToKg => 1
    case CelsiusToFahrenheit | FahrenheitToCelsius => 2
    case LitersToGallons | GallonsToLiters => 3
    case SqftToSqm | SqmToSqft => 4
    case KmhToMph | MphToKmh => 5
    case BarToPsi | PsiToBar => 6
    case MinutesToSeconds | SecondsToMinutes => 7
  }

  /** Each formula's name is offered by its category, which also offers the inverse formula. */
  lemma CategoryOffersKind(k: Kind)
    ensures CategoryOf(k) < |Categories|
    ensures NameOf(k) in Categories[CategoryOf(k)].options
    ensures CategoryOf(Inverse(k)) == CategoryOf(k)
  {
  }

  /* Each category offers registered names of its own formulas, one lemma per category. */

  lemma LengthOptionsRegistered()
    ensures forall name :: name in Categories[0].options ==> name in Conversions && CategoryOf(Conversions[name].kind) == 0
  {
    NameOfRegistered(KmToMiles);
    NameOfRegistered(MilesToKm);
    NameOfRegistered(InchesToCm);
    NameOfRegistered(CmToInches);
  }

  lemma WeightOptionsRegistered()
    ensures forall name :: name in Categories[1].options ==> name in Conversions && CategoryOf(Conversions[name].kind) == 1
  {
    NameOfRegistered(KgToLb);
    NameOfRegistered(LbToKg);
  }

  lemma TemperatureOptionsRegistered()
    ensures forall name :: name in Categories[2].options ==> name in Conversions && CategoryOf(Conversions[name].kind) == 2
  {
    NameOfRegistered(CelsiusToFahrenheit);
    NameOfRegistered(FahrenheitToCelsius);
  }

  lemma VolumeOptionsRegistered()
    ensures forall name :: name in Categories[3].options ==> name in Conversions && CategoryOf(Conversions[name].kind) == 3
  {
    NameOfRegistered(LitersToGallons);
    NameOfRegistered(GallonsToLiters);
  }

  lemma AreaOptionsRegistered()
    ensures forall name :: name in Categories[4].options ==> name in Conversions && CategoryOf(Conversions[name].kind) == 4
  {
    NameOfRegistered(SqftToSqm);
    NameOfRegistered(SqmToSqft);
  }

  lemma SpeedOptionsRegistered()
    ensures forall name :: name in Categories[5].options ==> name in Conversions && CategoryOf(Conversions[name].kind) == 5
  {
    NameOfRegistered(KmhToMph);
    NameOfRegistered(MphToKmh);
  }

  lemma PressureOptionsRegistered()
    ensures forall name :: name in Categories[6].options ==> name in Conversions && CategoryOf(Conversions[name].kind) == 6
  {
    NameOfRegistered(BarToPsi);
    NameOfRegistered(PsiToBar);
  }

  lemma TimeOptionsRegistered()
    ensures forall name :: name in Categories[7].options ==> name in Conversions && CategoryOf(Conversions[name].kind) == 7
  {
    NameOfRegistered(MinutesToSeconds);
    NameOfRegistered(SecondsToMinutes);
  }

  /** Everything category `i` offers is registered and filed under that category. */
  lemma CategoryOptionsRegistered(i: int)
    requires 0 <= i < |Categories|
    ensures forall name :: name in Categories[i].options ==>
      name in Conversions && CategoryOf(Conversions[name].kind) == i
  {
    if i == 0 {
      LengthOptionsRegistered();
    } else if i == 1 {
      WeightOptionsRegistered();
    } else if i == 2 {
      TemperatureOptionsRegistered();
    } else if i == 3 {
      VolumeOptionsRegistered();
    } else if i == 4 {
      AreaOptionsRegistered();
    } else if i == 5 {
      SpeedOptionsRegistered();
    } else if i == 6 {
      PressureOptionsRegistered();
    } else {
      TimeOptionsRegistered();
    }
  }

  /** Every offered name is registered and every registered name is offered, so the lookup of a picked name cannot fail. */
  lemma CategoriesMatchRegistry()
    ensures |Categories| == 8
    ensures forall name :: Offered(name) <==> name in Conversions
  {
    forall name | Offered(name)
      ensures name in Conversions
    {
      var i :| 0 <= i < |Categories| && name in Categories[i].options;
      CategoryOptionsRegistered(i);
    }
    forall name | name in Conversions
      ensures Offered(name)
    {
      var k := Conversions[name].kind;
      RegistryIsBijection();
      CategoryOffersKind(k);
    }
  }

  /** Each category offers both directions of each of its conversions. */
  lemma CategoriesClosedUnderInverse(i: int, name: string)
    requires 0 <= i < |Categories| && name in Categories[i].options
    ensures name in Conversions
    ensures NameOf(Inverse(Conversions[name].kind)) in Categories[i].options
  {
    CategoryOptionsRegistered(i);
    var k := Conversions[name].kind;
    CategoryOffersKind(k);
    CategoryOffersKind(Inverse(k));
  }

  const Separator: string := " to "

  /** The source unit's label: the part of a conversion name before the first " to ". */
  function SourceLabel(name: string): (head: string)
    ensures head <= name
    ensures forall j :: 0 <= j < |head| ==> !Text.OccursAt(name, Separator, j)
    ensures head == name || Text.OccursAt(name, Separator, |head|)
  {
    Text.SplitHead(name, Separator)
  }

  /** The unit named before " to " in a formula's registry name. */
  function SourceName(k: Kind): string {
    match k
    case KmToMiles => "Kilometers"
    case MilesToKm => "Miles"
    case KgToLb => "Kilograms"
    case LbToKg => "Pounds"
    case InchesToCm => "Inches"
    case CmToInches => "Centimeters"
    case CelsiusToFahrenheit => "Celsius"
    case FahrenheitToCelsius => "Fahrenheit"
    case LitersToGallons => "Liters"
    case GallonsToLiters => "Gallons"
    case SqftToSqm => "Square Feet"
    case SqmToSqft => "Square Meters"
    case KmhToMph => "Kilometers per hour"
    case MphToKmh => "Miles per hour"
    case BarToPsi => "Bar"
    case PsiToBar => "PSI"
    case MinutesToSeconds => "Minutes"
    case SecondsToMinutes => "Seconds"
  }

  /** The unit named after " to " in a formula's registry name. */
  function TargetName(k: Kind): string {
    match k
    case KmToMiles => "Miles"
    case MilesToKm => "Kilometers"
    case KgToLb => "Pounds"
    case LbToKg => "Kilograms"
    case InchesToCm => "Centimeters"
    case CmToInches => "Inches"
    case CelsiusToFahrenheit => "Fahrenheit"
    case FahrenheitToCelsius => "Celsius"
    case LitersToGallons => "Gallons"
    case GallonsToLiters => "Liters"
    case SqftToSqm => "Square Meters"
    case SqmToSqft => "Square Feet"
    case KmhToMph => "Miles per hour"
    case MphToKmh => "Kilometers per hour"
    case BarToPsi => "PSI"
    case PsiToBar => "Bar"
    case MinutesToSeconds => "Seconds"
    case SecondsToMinutes => "Minutes"
  }

  /** No " to " starts inside `l` when `l` is followed by " to ". */
  ghost predicate SeparatorFree(l: string) {
    forall j :: 0 <= j < |l| ==> !Text.OccursAt(l + Separator, Separator, j)
  }

  /** A single word, with no blank in it, cannot hold the separator. */
  lemma WordIsSeparatorFree(w: string)
    requires ' ' !in w
    ensures SeparatorFree(w)
  {
    forall j | 0 <= j < |w|
      ensures !Text.OccursAt(w + Separator, Separator, j)
    {
      assert (w + Separator)[j] == w[j];
    }
  }

  /** A word, a blank, and a separator-free phrase not starting with 't' make a separator-free phrase. */
  lemma PhraseIsSeparatorFree(w: string, l: string)
    requires ' ' !in w
    requires |l| > 0 && l[0] != 't'
    requires SeparatorFree(l)
    ensures SeparatorFree(w + " " + l)
  {
    var p := w + " ";
    var s := w + " " + l + Separator;
    assert s == p + (l + Separator);
    forall j | 0 <= j < |p| + |l|
      ensures !Text.OccursAt(s, Separator, j)
    {
      if j < |w| {
        assert s[j] == w[j];
      } else if j == |w| {
        assert s[j + 1] == l[0];
      } else {
        Text.OccursAtShift(p, l + Separator, Separator, j - |p|);
      }
    }
  }

  /**
   A formula's registry name is "<source unit> to <target unit>", and its
   source unit cannot hold the separator itself.
   */
  ghost predicate WellNamed(k: Kind) {
    && NameOf(k) == SourceName(k) + Separator + TargetName(k)
    && SourceName(k) != ""
    && SeparatorFree(SourceName(k))
  }

  /* One lemma per category of the picker, which keeps each proof about string literals small. */

  lemma LengthWellNamed()
    ensures WellNamed(KmToMiles) && WellNamed(MilesToKm) && WellNamed(InchesToCm) && WellNamed(CmToInches)
  {
    KilometersMilesWellNamed();
    InchesCentimetersWellNamed();
  }

  lemma KilometersMilesWellNamed()
    ensures WellNamed(KmToMiles) && WellNamed(MilesToKm)
  {
    WordIsSeparatorFree("Kilometers");
    WordIsSeparatorFree("Miles");
  }

  lemma InchesCentimetersWellNamed()
    ensures WellNamed(InchesToCm) && WellNamed(CmToInches)
  {
    WordIsSeparatorFree("Inches");
    WordIsSeparatorFree("Centimeters");
  }

  lemma WeightWellNamed()
    ensures WellNamed(KgToLb) && WellNamed(LbToKg)
  {
    WordIsSeparatorFree("Kilograms");
    WordIsSeparatorFree("Pounds");
  }

  lemma TemperatureWellNamed()
    ensures WellNamed(CelsiusToFahrenheit) && WellNamed(FahrenheitToCelsius)
  {
    WordIsSeparatorFree("Celsius");
    WordIsSeparatorFree("Fahrenheit");
  }

  lemma VolumeWellNamed()
    ensures WellNamed(LitersToGallons) && WellNamed(GallonsToLiters)
  {
    WordIsSeparatorFree("Liters");
    WordIsSeparatorFree("Gallons");
  }

  lemma AreaWellNamed()
    ensures WellNamed(SqftToSqm) && WellNamed(SqmToSqft)
  {
    WordIsSeparatorFree("Feet");
    PhraseIsSeparatorFree("Square", "Feet");
    WordIsSeparatorFree("Meters");
    PhraseIsSeparatorFree("Square", "Meters");
  }

  lemma SpeedWellNamed()
    ensures WellNamed(KmhToMph) && WellNamed(MphToKmh)
  {
    PerHourIsSeparatorFree();
    KmhToMphWellNamed();
    MphToKmhWellNamed();
  }

  lemma KmhToMphWellNamed()
    requires SeparatorFree("per hour")
    ensures WellNamed(KmhToMph)
  {
    PhraseIsSeparatorFree("Kilometers", "per hour");
  }

  lemma MphToKmhWellNamed()
    requires SeparatorFree("per hour")
    ensures WellNamed(MphToKmh)
  {
    PhraseIsSeparatorFree("Miles", "per hour");
  }

  lemma PerHourIsSeparatorFree()
    ensures SeparatorFree("per hour")
  {
    WordIsSeparatorFree("hour");
    PhraseIsSeparatorFree("per", "hour");
  }

  lemma PressureWellNamed()
    ensures WellNamed(BarToPsi) && WellNamed(PsiToBar)
  {
    WordIsSeparatorFree("Bar");
    WordIsSeparatorFree("PSI");
  }

  lemma TimeWellNamed()
    ensures WellNamed(MinutesToSeconds) && WellNamed(SecondsToMinutes)
  {
    WordIsSeparatorFree("Minutes");
    WordIsSeparatorFree("Seconds");
  }

  lemma AllWellNamed(k: Kind)
    ensures WellNamed(k)
  {
    match k {
      case KmToMiles | MilesToKm | InchesToCm | CmToInches => LengthWellNamed();
      case KgToLb | LbToKg => WeightWellNamed();
      case CelsiusToFahrenheit | FahrenheitToCelsius => TemperatureWellNamed();
      case LitersToGallons | GallonsToLiters => VolumeWellNamed();
      case SqftToSqm | SqmToSqft => AreaWellNamed();
      case KmhToMph | MphToKmh => SpeedWellNamed();
      case BarToPsi | PsiToBar => PressureWellNamed();
      case MinutesToSeconds | SecondsToMinutes => TimeWellNamed();
    }
  }

  /** Splitting a formula's registry name on " to " yields its source unit, a non-empty label. */
  lemma SourceLabelOfName(k: Kind)
    ensures SourceLabel(NameOf(k)) == SourceName(k)
    ensures SourceName(k) != ""
  {
    AllWellNamed(k);
    Text.SplitHeadOfJoin(SourceName(k), Separator, TargetName(k));
  }

  /** Every registered name's source label is the unit before " to ", and is never empty. */
  lemma RegistryLabels()
    ensures forall name :: name in Conversions ==>
      SourceLabel(name) == SourceName(Conversions[name].kind) != ""
  {
    RegistryIsBijection();
    forall name | name in Conversions
      ensures SourceLabel(name) == SourceName(Conversions[name].kind) != ""
    {
      SourceLabelOfName(Conversions[name].kind);
    }
  }

  /** The inverse formula's name swaps the two units around " to ". */
  lemma InverseSwapsNames(k: Kind)
    ensures SourceName(Inverse(k)) == TargetName(k)
    ensures TargetName(Inverse(k)) == SourceName(k)
    ensures NameOf(Inverse(k)) == TargetName(k) + Separator + SourceName(k)
  {
    AllWellNamed(Inverse(k));
  }

  /** What the Convert action shows: the source label, the converted value and the target unit. */
  datatype Conversion = Conversion(sourceLabel: string, result: real, unit: string)

  datatype Error = InvalidConversionKind(name: string)

  /**
   Looks `name` up in the registry and applies its formula to `x`. The
   application indexes the registry directly; a name it does not hold is an
   error here rather than an exception.
   */
  function Convert(name: string, x: real): (r: Result<Conversion, Error>)
    ensures r.Success? <==> name in Conversions
    ensures r.Failure? ==> r.error == InvalidConversionKind(name)
    ensures r.Success? ==> r.value.sourceLabel == SourceLabel(name) && r.value.unit == Conversions[name].unit
    ensures r.Success? ==> r.value.result == Apply(Conversions[name].kind, x)
  {
    if name in Conversions then
      var entry := Conversions[name];
      Success(Conversion(SourceLabel(name), Apply(entry.kind, x), entry.unit))
    else
      Failure(InvalidConversionKind(name))
  }

  /** Converting any value under any name a category offers succeeds. */
  lemma ConvertTotalOnOffered(name: string, x: real)
    requires Offered(name)
    ensures Convert(name, x).Success?
  {
    CategoriesMatchRegistry();
  }

  /** Converting under a name and then under the inverse formula's name gives back the input. */
  lemma ConvertRoundTrip(name: string, x: real)
    requires name in Conversions
    ensures Convert(name, x).Success?
    ensures var back := NameOf(Inverse(Conversions[name].kind));
      Convert(back, Convert(name, x).value.result).Success? &&
      Convert(back, Convert(name, x).value.result).value.result == x
  {
    var k := Conversions[name].kind;
    RegistryIsBijection();
    InverseRoundTrip(k, x);
  }
}
