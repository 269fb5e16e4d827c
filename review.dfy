/**
 * The review step (review-step.tsx): the emissions preview it computes from
 * the form data before anything is sent, and the small text rules it uses to
 * show the itinerary (location truncation, mode capitalisation, base-location
 * labels).
 */
module Review {
  import opened Carbon
  import opened Schema

  /** `{ ...segment, distance, emissions }` */
  datatype PreviewSegment = PreviewSegment(segment: SegmentInput, distance: real, emissions: real)

  /** segmentsWithEmissions: each segment with its distance and the emissions of its own mode. */
  function PreviewSegments(segs: seq<SegmentInput>, geo: Geodesy): (r: seq<PreviewSegment>)
    ensures |r| == |segs|
    ensures forall i | 0 <= i < |segs| ::
      && r[i].segment == segs[i]
      && r[i].distance == geo.Between(segs[i].fromCoordinates, segs[i].toCoordinates)
      && r[i].emissions == Emissions(segs[i].transportMode, r[i].distance)
  {
    if segs == [] then []
    else
      var s := segs[0];
      var distance := geo.Between(s.fromCoordinates, s.toCoordinates);
      [PreviewSegment(s, distance, Emissions(s.transportMode, distance))] + PreviewSegments(segs[1..], geo)
  }

  /** What getEmissionsByMode reads of a preview entry: its mode and its distance. */
  function PreviewLegs(p: seq<PreviewSegment>): seq<Leg>
  {
    seq(|p|, i requires 0 <= i < |p| => Leg(p[i].segment.transportMode, p[i].distance))
  }

  function PreviewEmissions(p: PreviewSegment): real
  {
    p.emissions
  }

  /**
   * The preview sees the same legs the server computes, and its per-entry
   * emissions add up to the server's total for the same segments.
   */
  lemma PreviewAgreesWithServer(segs: seq<SegmentInput>, geo: Geodesy)
    ensures PreviewLegs(PreviewSegments(segs, geo)) == Legs(segs, geo)
    ensures SumOf(PreviewSegments(segs, geo), PreviewEmissions) == TotalEmissions(Legs(segs, geo))
  {
    var p := PreviewSegments(segs, geo);
    var legs := Legs(segs, geo);
    assert PreviewLegs(p) == legs;
    SumOfPointwise(p, PreviewEmissions, legs, LegEmissions);
  }

  /**
   * `Object.values(emissionsByMode).reduce((sum, e) => sum + e, 0)`: the values
   * in the order the keys were created (car, train, air, bus, bike).
   */
  function ValuesSum(byMode: map<Mode, real>): (r: real)
    requires AllModes <= byMode.Keys
    ensures (forall m | m in AllModes :: 0.0 <= byMode[m]) ==> 0.0 <= r && forall m | m in AllModes :: byMode[m] <= r
  {
    0.0 + byMode[Car] + byMode[Train] + byMode[Air] + byMode[Bus] + byMode[Bike]
  }

  /**
   * totalEmissions of the preview: the sum of the five per-mode values, which
   * is the total emissions of the segments, the figure the server stores.
   */
  function PreviewTotal(segs: seq<SegmentInput>, geo: Geodesy): (total: real)
    ensures total == TotalEmissions(Legs(segs, geo))
    ensures total >= 0.0 <== forall i | 0 <= i < |segs| ::
      geo.Between(segs[i].fromCoordinates, segs[i].toCoordinates) >= 0.0
  {
    var legs := PreviewLegs(PreviewSegments(segs, geo));
    PreviewAgreesWithServer(segs, geo);
    ValuesSumIsTotal(legs);
    NonNegativeLegs(segs, geo);
    ValuesSum(ByMode(legs))
  }

  /** Summing the values of the breakdown gives the total emissions. */
  lemma ValuesSumIsTotal(legs: seq<Leg>)
    ensures ValuesSum(ByMode(legs)) == TotalEmissions(legs)
  {
  }

  /** Non-negative distances give non-negative segment emissions. */
  lemma NonNegativeLegs(segs: seq<SegmentInput>, geo: Geodesy)
    ensures (forall i | 0 <= i < |segs| :: geo.Between(segs[i].fromCoordinates, segs[i].toCoordinates) >= 0.0)
            ==> TotalEmissions(Legs(segs, geo)) >= 0.0
  {
    var legs := Legs(segs, geo);
    if forall i | 0 <= i < |segs| :: geo.Between(segs[i].fromCoordinates, segs[i].toCoordinates) >= 0.0 {
      forall leg | leg in legs ensures LegEmissions(leg) >= 0.0 {
        var i :| 0 <= i < |legs| && legs[i] == leg;
      }
    }
  }

  /** The preview shows the total of a form the server accepts, as the server will store it. */
  lemma PreviewMatchesStoredTotal(f: Request, geo: Geodesy)
    requires WellFormedRequest(f)
    ensures ValidRawRequest(Encode(f))
    ensures TotalEmissions(Legs(Parse(Encode(f)).value.segments, geo)) == PreviewTotal(f.segments, geo)
  {
    ParseEncode(f);
  }

  const MaxShown: nat := 30

  /** A location longer than 30 characters is cut to its first 30 and "..." is added. */
  function Truncated(s: string): (r: string)
    ensures |r| <= MaxShown + 3
    ensures |s| <= MaxShown ==> r == s
    ensures |s| > MaxShown ==> |r| == MaxShown + 3 && r[..MaxShown] == s[..MaxShown] && r[MaxShown..] == "..."
  {
    if |s| > MaxShown then s[..MaxShown] + "..." else s
  }

  /** Truncating what is already shown changes nothing. */
  lemma TruncatedIsIdempotent(s: string)
    ensures Truncated(Truncated(s)) == Truncated(s)
  {
    if |s| > MaxShown {
      var r := Truncated(s);
      assert r[..MaxShown] + "..." == r;
    }
  }

  /** Two long locations look the same exactly when their first 30 characters agree. */
  lemma TruncatedCollapsesLongTails(a: string, b: string)
    requires |a| > MaxShown && |b| > MaxShown
    ensures Truncated(a) == Truncated(b) <==> a[..MaxShown] == b[..MaxShown]
  {
    if Truncated(a) == Truncated(b) {
      assert a[..MaxShown] == Truncated(a)[..MaxShown];
    }
  }

  /** baseLocationLabels */
  const BaseLocationLabels: map<string, string> := map[
    "delhi" := "Delhi",
    "bangalore" := "Bangalore",
    "chhattisgarh" := "Chhattisgarh",
    "jharkhand" := "Jharkhand",
    "madhya-pradesh" := "Madhya Pradesh",
    "maharashtra" := "Maharashtra",
    "west-bengal" := "West Bengal",
    "tanzania" := "Tanzania",
    "zambia" := "Zambia",
    "united-states" := "United States"]

  /** `baseLocationLabels[key] || key`: the label when there is one, otherwise the key itself. */
  function BaseLocationLabel(key: string): (r: string)
    ensures key in BaseLocationLabels ==> r == BaseLocationLabels[key]
    ensures key !in BaseLocationLabels ==> r == key
  {
    if key in BaseLocationLabels && BaseLocationLabels[key] != "" then BaseLocationLabels[key] else key
  }

  /** No label is empty, so `||` falls back only outside the table: a non-empty key never shows as empty. */
  lemma LabelsAreNonEmpty(key: string)
    requires key != ""
    ensures BaseLocationLabel(key) != ""
  {
  }

  /** The ten known locations each get their own label. */
  lemma KnownLabelsDistinct(a: string, b: string)
    requires a in BaseLocationLabels && b in BaseLocationLabels && a != b
    ensures BaseLocationLabel(a) != BaseLocationLabel(b)
  {
  }

  /** `toUpperCase()` of one character, for the ASCII letters the mode names use. */
  function UpperCase(c: char): (u: char)
    ensures 'a' <= c <= 'z' ==> 'A' <= u <= 'Z' && u as int == c as int - 32
    ensures !('a' <= c <= 'z') ==> u == c
  {
    if 'a' <= c <= 'z' then (c as int - 32) as char else c
  }

  /** `s.charAt(0).toUpperCase() + s.slice(1)` */
  function Capitalized(s: string): (r: string)
    ensures |r| == |s|
    ensures s != [] ==> r[0] == UpperCase(s[0]) && r[1..] == s[1..]
  {
    if s == [] then [] else [UpperCase(s[0])] + s[1..]
  }

  /** The mode as the review shows it. */
  function ModeLabel(m: Mode): string
  {
    Capitalized(ModeName(m))
  }

  /** Capitalising twice is capitalising once. */
  lemma CapitalizedIsIdempotent(s: string)
    ensures Capitalized(Capitalized(s)) == Capitalized(s)
  {
    if s != [] {
      assert Capitalized(s)[1..] == s[1..];
    }
  }

  /** The five labels: "Car", "Train", "Air", "Bus", "Bike", one per mode. */
  lemma ModeLabels()
    ensures ModeLabel(Car) == "Car" && ModeLabel(Train) == "Train" && ModeLabel(Air) == "Air"
    ensures ModeLabel(Bus) == "Bus" && ModeLabel(Bike) == "Bike"
    ensures forall a: Mode, b: Mode :: ModeLabel(a) == ModeLabel(b) ==> a == b
  {
    assert ModeLabel(Car) == "Car";
    assert ModeLabel(Train) == "Train";
    assert ModeLabel(Air) == "Air";
    assert ModeLabel(Bus) == "Bus";
    assert ModeLabel(Bike) == "Bike";
  }
}
