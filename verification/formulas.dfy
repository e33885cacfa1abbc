/**
 The eighteen unit conversion formulas of the converter, one function per
 formula, with the decimal constants the application embeds (1.609 for the
 kilometre/mile ratio rather than the exact 1.609344, and so on).

 The application computes in IEEE doubles; here every formula is over `real`,
 where each constant is the exact rational it is written as. The laws proved
 below (inverse pairs, fixed points, linearity, monotonicity) therefore hold
 exactly of this model and only approximately of the floating-point program.
 */
module Formulas {

  // Ratios the formulas embed, written exactly as the application writes them.
  const KmPerMile: real := 1.609
  const LbPerKg: real := 2.205
  const CmPerInch: real := 2.54
  const GallonsPerLiter: real := 0.264172
  const SqmPerSqft: real := 0.092903
  const PsiPerBar: real := 14.5038
  const SecondsPerMinute: real := 60.0

  function KmToMiles(km: real): real { km / KmPerMile }
  function MilesToKm(miles: real): real { miles * KmPerMile }
  function KgToLb(kg: real): real { kg * LbPerKg }
  function LbToKg(lb: real): real { lb / LbPerKg }
  function InchesToCm(inches: real): real { inches * CmPerInch }
  function CmToInches(cm: real): real { cm / CmPerInch }
  function CelsiusToFahrenheit(celsius: real): real { (celsius * 9.0 / 5.0) + 32.0 }
  function FahrenheitToCelsius(fahrenheit: real): real { (fahrenheit - 32.0) * 5.0 / 9.0 }
  function LitersToGallons(liters: real): real { liters * GallonsPerLiter }
  function GallonsToLiters(gallons: real): real { gallons / GallonsPerLiter }
  function SqftToSqm(sqft: real): real { sqft * SqmPerSqft }
  function SqmToSqft(sqm: real): real { sqm / SqmPerSqft }
  function KmhToMph(kmh: real): real { kmh / KmPerMile }
  function MphToKmh(mph: real): real { mph * KmPerMile }
  function BarToPsi(bar: real): real { bar * PsiPerBar }
  function PsiToBar(psi: real): real { psi / PsiPerBar }
  function MinutesToSeconds(minutes: real): real { minutes * SecondsPerMinute }
  function SecondsToMinutes(seconds: real): real { seconds / SecondsPerMinute }

  /* The nine forward/inverse pairs are mutually inverse, in both directions. */

  lemma KmMilesInverse(x: real)
    ensures MilesToKm(KmToMiles(x)) == x
    ensures KmToMiles(MilesToKm(x)) == x
  {
  }

  lemma KgLbInverse(x: real)
    ensures LbToKg(KgToLb(x)) == x
    ensures KgToLb(LbToKg(x)) == x
  {
  }

  lemma InchesCmInverse(x: real)
    ensures CmToInches(InchesToCm(x)) == x
    ensures InchesToCm(CmToInches(x)) == x
  {
  }

  lemma CelsiusFahrenheitInverse(x: real)
    ensures FahrenheitToCelsius(CelsiusToFahrenheit(x)) == x
    ensures CelsiusToFahrenheit(FahrenheitToCelsius(x)) == x
  {
  }

  lemma LitersGallonsInverse(x: real)
    ensures GallonsToLiters(LitersToGallons(x)) == x
    ensures LitersToGallons(GallonsToLiters(x)) == x
  {
  }

  lemma SqftSqmInverse(x: real)
    ensures SqmToSqft(SqftToSqm(x)) == x
    ensures SqftToSqm(SqmToSqft(x)) == x
  {
  }

  lemma KmhMphInverse(x: real)
    ensures MphToKmh(KmhToMph(x)) == x
    ensures KmhToMph(MphToKmh(x)) == x
  {
  }

  lemma BarPsiInverse(x: real)
    ensures PsiToBar(BarToPsi(x)) == x
    ensures BarToPsi(PsiToBar(x)) == x
  {
  }

  lemma MinutesSecondsInverse(x: real)
    ensures SecondsToMinutes(MinutesToSeconds(x)) == x
    ensures MinutesToSeconds(SecondsToMinutes(x)) == x
  {
  }

  /* Reference points of the two temperature scales. */

  lemma TemperatureFixedPoints()
    ensures CelsiusToFahrenheit(0.0) == 32.0
    ensures CelsiusToFahrenheit(100.0) == 212.0
    ensures FahrenheitToCelsius(32.0) == 0.0
    ensures FahrenheitToCelsius(212.0) == 100.0
    ensures CelsiusToFahrenheit(-40.0) == -40.0
  {
  }

  /* The speed conversions reuse the length ratio: they are the same functions. */

  lemma SpeedMatchesLength(x: real)
    ensures KmhToMph(x) == KmToMiles(x)
    ensures MphToKmh(x) == MilesToKm(x)
  {
  }

  /* Sample values: one kilometre-per-mile ratio and one pound-per-kilogram ratio. */

  lemma SampleValues()
    ensures KmToMiles(1.609) == 1.0 && MilesToKm(1.0) == 1.609
    ensures KgToLb(1.0) == 2.205 && LbToKg(2.205) == 1.0
  {
  }
}
