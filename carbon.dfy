/**
 * Emission factors and the aggregation of per-segment emissions
 * (client/src/lib/carbon-calculator.ts). Numbers are exact reals here,
 * so the aggregate identities hold exactly rather than up to rounding.
 */
module Carbon {

  /** The closed set of transport modes, the keys of EMISSION_FACTORS. */
  datatype Mode = Car | Train | Air | Bus | Bike

  const AllModes: set<Mode> := {Car, Train, Air, Bus, Bike}

  /** The key under which a mode appears in the factor table and in JSON. */
  function ModeName(m: Mode): (name: string)
    ensures name != [] && forall c | c in name :: 'a' <= c <= 'z'
  {
    match m
    case Car => "car"
    case Train => "train"
    case Air => "air"
    case Bus => "bus"
    case Bike => "bike"
  }

  /** kg CO2 per km for each mode. */
  function Factor(m: Mode): (f: real)
    ensures 0.0 <= f <= 0.2
    ensures f == 0.0 <==> m == Bike
  {
    match m
    case Car => 0.2
    case Train => 0.05
    case Air => 0.15
    case Bus => 0.08
    case Bike => 0.0
  }

  /** calculateEmissions: distance times the mode's factor. */
  function Emissions(m: Mode, distance: real): (e: real)
    ensures 0.0 <= distance ==> 0.0 <= e
    ensures m == Bike ==> e == 0.0
    ensures m != Bike && 0.0 < distance ==> 0.0 < e
  {
    distance * Factor(m)
  }

  lemma EmissionsPer100Km()
    ensures Emissions(Car, 100.0) == 20.0
    ensures Emissions(Train, 100.0) == 5.0
    ensures Emissions(Air, 100.0) == 15.0
    ensures Emissions(Bus, 100.0) == 8.0
    ensures Emissions(Bike, 100.0) == 0.0
  {
  }

  /** Emissions are linear in the distance, for every mode. */
  lemma EmissionsLinear(m: Mode, a: real, b: real, k: real)
    ensures Emissions(m, a + b) == Emissions(m, a) + Emissions(m, b)
    ensures Emissions(m, k * a) == k * Emissions(m, a)
  {
    match m
    case Car =>
    case Train =>
    case Air =>
    case Bus =>
    case Bike =>
  }

  /** A parsed latitude/longitude pair in degrees. */
  datatype Coordinate = Coordinate(lat: real, lon: real)

  /**
   * The collaborators the emissions engine cannot see into: turning a
   * "lat,lng" string into numbers, and the haversine calculateDistance.
   */
  datatype Geodesy = Geodesy(parse: string -> Coordinate, calculateDistance: (real, real, real, real) -> real)
  {
    /** The distance in km between two coordinate strings, as both callers compute it. */
    function Between(fromCoordinates: string, toCoordinates: string): real
    {
      var a := parse(fromCoordinates);
      var b := parse(toCoordinates);
      calculateDistance(a.lat, a.lon, b.lat, b.lon)
    }
  }

  /** What the aggregators read from a segment: its mode and its distance. */
  datatype Leg = Leg(transportMode: Mode, distance: real)

  function LegEmissions(leg: Leg): real
  {
    Emissions(leg.transportMode, leg.distance)
  }

  /** Left fold `s.reduce((acc, x) => acc + f(x), 0)`. */
  function SumOf<T>(s: seq<T>, f: T -> real): (r: real)
    ensures (forall i | 0 <= i < |s| :: 0.0 <= f(s[i])) ==> 0.0 <= r
  {
    if s == [] then 0.0 else SumOf(s[..|s| - 1], f) + f(s[|s| - 1])
  }

  lemma {:induction false} SumOfAppend<T>(a: seq<T>, b: seq<T>, f: T -> real)
    ensures SumOf(a + b, f) == SumOf(a, f) + SumOf(b, f)
    decreases |b|
  {
    if b == [] {
      assert a + b == a;
    } else {
      var n := |b| - 1;
      SumOfAppend(a, b[..n], f);
      assert (a + b)[..|a + b| - 1] == a + b[..n];
    }
  }

  /** The fold does not depend on the order of the elements. */
  lemma {:induction false} SumOfPermutation<T>(s: seq<T>, t: seq<T>, f: T -> real)
    requires multiset(s) == multiset(t)
    ensures SumOf(s, f) == SumOf(t, f)
    decreases |s|
  {
    if s == [] {
      assert |t| == |multiset(t)| == 0;
    } else {
      var n := |s| - 1;
      var x := s[n];
      assert s == s[..n] + [x];
      assert x in multiset(t);
      var j :| 0 <= j < |t| && t[j] == x;
      var t' := t[..j] + t[j + 1..];
      assert t == t[..j] + [x] + t[j + 1..];
      assert multiset(t) == multiset(t[..j]) + multiset{x} + multiset(t[j + 1..]);
      assert multiset(s) == multiset(s[..n]) + multiset{x};
      assert multiset(t') == multiset(t[..j]) + multiset(t[j + 1..]);
      assert multiset(t') == multiset(t) - multiset{x};
      assert multiset(s[..n]) == multiset(s) - multiset{x};
      SumOfPermutation(s[..n], t', f);
      SumOfAppend(t[..j] + [x], t[j + 1..], f);
      SumOfAppend(t[..j], t[j + 1..], f);
      assert (t[..j] + [x])[..j] == t[..j];
    }
  }

  /** Two folds agree when their terms agree position by position. */
  lemma {:induction false} SumOfPointwise<A, B>(s: seq<A>, f: A -> real, t: seq<B>, g: B -> real)
    requires |s| == |t|
    requires forall i | 0 <= i < |s| :: f(s[i]) == g(t[i])
    ensures SumOf(s, f) == SumOf(t, g)
    decreases |s|
  {
    if s != [] {
      var n := |s| - 1;
      SumOfPointwise(s[..n], f, t[..n], g);
    }
  }

  /** getTotalEmissions: the sum of every segment's emissions. */
  function TotalEmissions(legs: seq<Leg>): (total: real)
    ensures legs == [] ==> total == 0.0
    ensures (forall i | 0 <= i < |legs| :: 0.0 <= legs[i].distance) ==> 0.0 <= total
  {
    SumOf(legs, LegEmissions)
  }

  /** Extending the prefix by one segment adds that segment's emissions. */
  lemma TotalEmissionsStep(legs: seq<Leg>, i: nat)
    requires i < |legs|
    ensures TotalEmissions(legs[..i + 1]) == TotalEmissions(legs[..i]) + LegEmissions(legs[i])
  {
    assert legs[..i + 1][..i] == legs[..i];
  }

  /** A segment's contribution to mode m's total. */
  function ModeShare(m: Mode): Leg -> real
  {
    (leg: Leg) => if leg.transportMode == m then LegEmissions(leg) else 0.0
  }

  /** The per-mode total: what getEmissionsByMode accumulates under key m. */
  function ModeSum(legs: seq<Leg>, m: Mode): real
  {
    SumOf(legs, ModeShare(m))
  }

  /** The segments of one mode, in their original order. */
  function OfMode(legs: seq<Leg>, m: Mode): (r: seq<Leg>)
    ensures forall leg :: leg in r <==> leg in legs && leg.transportMode == m
  {
    if legs == [] then []
    else
      var n := |legs| - 1;
      OfMode(legs[..n], m) + if legs[n].transportMode == m then [legs[n]] else []
  }

  /** Each segment of mode m is kept as many times as it occurs in the input, and no other is. */
  lemma {:induction false} OfModeCounts(legs: seq<Leg>, m: Mode, leg: Leg)
    ensures multiset(OfMode(legs, m))[leg] == if leg.transportMode == m then multiset(legs)[leg] else 0
    decreases |legs|
  {
    if legs != [] {
      var n := |legs| - 1;
      OfModeCounts(legs[..n], m, leg);
      assert legs == legs[..n] + [legs[n]];
      assert multiset(legs) == multiset(legs[..n]) + multiset{legs[n]};
    }
  }

  /** Selecting one mode commutes with concatenation, so the input order is kept. */
  lemma {:induction false} OfModeAppend(a: seq<Leg>, b: seq<Leg>, m: Mode)
    ensures OfMode(a + b, m) == OfMode(a, m) + OfMode(b, m)
    decreases |b|
  {
    if b == [] {
      assert a + b == a;
    } else {
      var n := |b| - 1;
      var last := if b[n].transportMode == m then [b[n]] else [];
      OfModeAppend(a, b[..n], m);
      assert (a + b)[..|a + b| - 1] == a + b[..n] && (a + b)[|a + b| - 1] == b[n];
      calc {
        OfMode(a + b, m);
        OfMode(a + b[..n], m) + last;
        OfMode(a, m) + OfMode(b[..n], m) + last;
        OfMode(a, m) + (OfMode(b[..n], m) + last);
        OfMode(a, m) + OfMode(b, m);
      }
    }
  }

  /** Mode m's total is the total emissions of exactly the segments of mode m. */
  lemma {:induction false} ModeSumIsTotalOfMode(legs: seq<Leg>, m: Mode)
    ensures ModeSum(legs, m) == TotalEmissions(OfMode(legs, m))
    decreases |legs|
  {
    if legs != [] {
      var n := |legs| - 1;
      ModeSumIsTotalOfMode(legs[..n], m);
      var rest := OfMode(legs[..n], m);
      if legs[n].transportMode == m {
        SumOfAppend(rest, [legs[n]], LegEmissions);
        assert [legs[n]][..0] == [];
      } else {
        assert rest + [] == rest;
      }
    }
  }

  /** Extending the prefix by one segment adds that segment's share. */
  lemma ModeSumStep(legs: seq<Leg>, i: nat, m: Mode)
    requires i < |legs|
    ensures ModeSum(legs[..i + 1], m)
            == ModeSum(legs[..i], m) + if legs[i].transportMode == m then LegEmissions(legs[i]) else 0.0
  {
    assert legs[..i + 1][..i] == legs[..i];
  }

  /** A mode no segment uses has total 0. */
  lemma {:induction false} UnusedModeSumsToZero(legs: seq<Leg>, m: Mode)
    requires forall i | 0 <= i < |legs| :: legs[i].transportMode != m
    ensures ModeSum(legs, m) == 0.0
    decreases |legs|
  {
    if legs != [] {
      UnusedModeSumsToZero(legs[..|legs| - 1], m);
    }
  }

  /** The five per-mode totals add up to the overall total. */
  lemma {:induction false} ModeSumsAddUp(legs: seq<Leg>)
    ensures ModeSum(legs, Car) + ModeSum(legs, Train) + ModeSum(legs, Air)
            + ModeSum(legs, Bus) + ModeSum(legs, Bike) == TotalEmissions(legs)
    decreases |legs|
  {
    if legs != [] {
      ModeSumsAddUp(legs[..|legs| - 1]);
    }
  }

  /**
   * The breakdown as a value: every mode is a key, each holding the total
   * emissions of that mode's segments, and the five add up to the total.
   */
  function ByMode(legs: seq<Leg>): (byMode: map<Mode, real>)
    ensures byMode.Keys == AllModes
    ensures forall m | m in AllModes :: byMode[m] == TotalEmissions(OfMode(legs, m))
    ensures byMode[Car] + byMode[Train] + byMode[Air] + byMode[Bus] + byMode[Bike] == TotalEmissions(legs)
  {
    ModeSumsAddUp(legs);
    ModeSumsAreTotalsOfMode(legs);
    map m | m in AllModes :: ModeSum(legs, m)
  }

  lemma ModeSumsAreTotalsOfMode(legs: seq<Leg>)
    ensures forall m :: ModeSum(legs, m) == TotalEmissions(OfMode(legs, m))
  {
    forall m ensures ModeSum(legs, m) == TotalEmissions(OfMode(legs, m)) {
      ModeSumIsTotalOfMode(legs, m);
    }
  }

  /**
   * getEmissionsByMode: start every mode at 0, then add each segment's
   * emissions under its own mode.
   */
  method EmissionsByMode(legs: seq<Leg>) returns (byMode: map<Mode, real>)
    ensures byMode == ByMode(legs)
    ensures forall m | m in AllModes && (forall i | 0 <= i < |legs| :: legs[i].transportMode != m) :: byMode[m] == 0.0
  {
    byMode := map[Car := 0.0, Train := 0.0, Air := 0.0, Bus := 0.0, Bike := 0.0];
    for i := 0 to |legs|
      invariant byMode.Keys == AllModes
      invariant forall m | m in AllModes :: byMode[m] == ModeSum(legs[..i], m)
    {
      var leg := legs[i];
      byMode := byMode[leg.transportMode := byMode[leg.transportMode] + Emissions(leg.transportMode, leg.distance)];
      ghost var prefix := legs[..i + 1];
      assert prefix[..i] == legs[..i] && prefix[i] == leg;
      forall m | m in AllModes
        ensures byMode[m] == ModeSum(prefix, m)
      {
        ModeSumStep(legs, i, m);
      }
    }
    assert legs[..|legs|] == legs;
    ByModeOfSums(byMode, legs);
  }

  /** A map holding every mode's sum under its own key is the breakdown, with 0 for unused modes. */
  lemma ByModeOfSums(byMode: map<Mode, real>, legs: seq<Leg>)
    requires byMode.Keys == AllModes
    requires forall m | m in AllModes :: byMode[m] == ModeSum(legs, m)
    ensures byMode == ByMode(legs)
    ensures forall m | m in AllModes && (forall i | 0 <= i < |legs| :: legs[i].transportMode != m) :: byMode[m] == 0.0
  {
    forall m | m in AllModes && forall i | 0 <= i < |legs| :: legs[i].transportMode != m
      ensures byMode[m] == 0.0
    {
      UnusedModeSumsToZero(legs, m);
    }
    SameKeysSameValues(byMode, ByMode(legs));
  }

  /** Reordering the segments keeps each mode's segments, up to order, and so each mode's total. */
  lemma ByModeIgnoresOrder(legs: seq<Leg>, reordered: seq<Leg>)
    requires multiset(legs) == multiset(reordered)
    ensures ByMode(legs) == ByMode(reordered)
  {
    var before, after := ByMode(legs), ByMode(reordered);
    forall m | m in AllModes ensures before[m] == after[m] {
      ModeTotalIgnoresOrder(legs, reordered, m);
    }
    SameKeysSameValues(before, after);
  }

  /** Two breakdowns with all five keys and the same five values are equal. */
  lemma SameKeysSameValues(a: map<Mode, real>, b: map<Mode, real>)
    requires a.Keys == AllModes && b.Keys == AllModes
    requires forall m | m in AllModes :: a[m] == b[m]
    ensures a == b
  {
  }

  lemma ModeTotalIgnoresOrder(legs: seq<Leg>, reordered: seq<Leg>, m: Mode)
    requires multiset(legs) == multiset(reordered)
    ensures TotalEmissions(OfMode(legs, m)) == TotalEmissions(OfMode(reordered, m))
  {
    forall leg ensures multiset(OfMode(legs, m))[leg] == multiset(OfMode(reordered, m))[leg] {
      OfModeCounts(legs, m, leg);
      OfModeCounts(reordered, m, leg);
    }
    SumOfPermutation(OfMode(legs, m), OfMode(reordered, m), LegEmissions);
  }

  /** Reordering the segments changes neither aggregate. */
  lemma AggregatesIgnoreOrder(legs: seq<Leg>, reordered: seq<Leg>)
    requires multiset(legs) == multiset(reordered)
    ensures TotalEmissions(legs) == TotalEmissions(reordered)
    ensures ByMode(legs) == ByMode(reordered)
  {
    SumOfPermutation(legs, reordered, LegEmissions);
    ByModeIgnoresOrder(legs, reordered);
  }
}
