/**
 * The value ranges of the numeric input widget (DoubleSpinBox): each
 * ValueRange selects the minimum and maximum the widget is given.
 */
module SpinBox {

  datatype ValueRange = Unrestricted | Positive | Negative | NonPositive | NonNegative

  /** Largest finite double, (2^53 - 1) * 2^971. */
  const DoubleMax: real := 179769313486231570814527423731704356798070567525844996598917476803157260780028538760589558632766878171540458953514382464234321326889464182768467546703537516986049910576551282076245490090389328944075868508455133942304583236903222948165808559332123348274797826204144723168738177180919299881250404026184124858368.0

  /** 2^1022, the reciprocal of the smallest positive normalised double. */
  const TwoPow1022: real := 44942328371557897693232629769725618340449424473557664318357520289433168951375240783177119330601884005280028469967848339414697442203604155623211857659868531094441973356216371319075554900311523529863270738021251442209537670585615720368478277635206809290837627671146574559986811484619929076208839082406056034304.0

  /** Smallest positive normalised double (numeric_limits<double>::min). */
  const DoubleMin: real := 1.0 / TwoPow1022

  /** Most negative finite double (numeric_limits<double>::lowest). */
  const DoubleLowest: real := -DoubleMax

  datatype Bounds = Bounds(minimum: real, maximum: real)

  /** The minimum and maximum the widget is configured with for each range. */
  function BoundsOf(range: ValueRange): (b: Bounds)
    ensures b.minimum <= b.maximum
    ensures DoubleLowest <= b.minimum && b.maximum <= DoubleMax
  {
    match range
    case Unrestricted => Bounds(DoubleLowest, DoubleMax)
    case Positive => Bounds(DoubleMin, DoubleMax)
    case Negative => Bounds(DoubleLowest, -DoubleMin)
    case NonPositive => Bounds(DoubleLowest, 0.0)
    case NonNegative => Bounds(0.0, DoubleMax)
  }

  /** A value the widget accepts. */
  predicate Admits(range: ValueRange, v: real) {
    BoundsOf(range).minimum <= v <= BoundsOf(range).maximum
  }

  /**
   * Each range admits the finite doubles of its sign: strictly signed ranges
   * exclude zero, the others include it as their bound. Positive values below
   * the smallest normalised double are left out of Positive, and likewise
   * for Negative.
   */
  lemma RangesBySign(v: real)
    requires DoubleLowest <= v <= DoubleMax
    ensures Admits(Unrestricted, v)
    ensures Admits(Positive, v) <==> v >= DoubleMin
    ensures Admits(Negative, v) <==> v <= -DoubleMin
    ensures Admits(NonPositive, v) <==> v <= 0.0
    ensures Admits(NonNegative, v) <==> v >= 0.0
    ensures Admits(Positive, v) ==> v > 0.0
    ensures Admits(Negative, v) ==> v < 0.0
  {
  }

  /** Zero is the shared bound of the two non-strict ranges. */
  lemma ZeroBounds()
    ensures Admits(NonPositive, 0.0) && BoundsOf(NonPositive).maximum == 0.0
    ensures Admits(NonNegative, 0.0) && BoundsOf(NonNegative).minimum == 0.0
    ensures !Admits(Positive, 0.0) && !Admits(Negative, 0.0)
  {
  }

  /** Negative is Positive reflected through zero, and NonPositive is NonNegative reflected. */
  lemma NegativeMirrorsPositive()
    ensures BoundsOf(Negative) == Bounds(-BoundsOf(Positive).maximum, -BoundsOf(Positive).minimum)
    ensures BoundsOf(NonPositive) == Bounds(-BoundsOf(NonNegative).maximum, -BoundsOf(NonNegative).minimum)
  {
  }

  /** Unrestricted is symmetric and every range lies inside it. */
  lemma WithinUnrestricted(range: ValueRange, v: real)
    ensures BoundsOf(Unrestricted).minimum == -BoundsOf(Unrestricted).maximum
    ensures Admits(range, v) ==> Admits(Unrestricted, v)
  {
  }
}
