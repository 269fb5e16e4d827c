/**
 * The submission payload and its validation (shared/schema.ts,
 * createItinerarySchema). The raw payload carries the mode as a string;
 * a successful parse yields the typed request the server works on.
 */
module Schema {
  import opened Wrappers
  import opened Carbon

  const MaxSegments: nat := 5

  /** One segment as it arrives in the JSON body. */
  datatype RawSegment = RawSegment(
    transportMode: string,
    fromLocation: string,
    fromCoordinates: string,
    toLocation: string,
    toCoordinates: string)

  /** The JSON body of POST /api/itineraries. */
  datatype RawRequest = RawRequest(
    travelerName: string,
    baseLocation: string,
    travelDate: string,
    multipleTransport: bool,
    segments: seq<RawSegment>)

  /** A segment whose mode has been checked against the enumeration. */
  datatype SegmentInput = SegmentInput(
    transportMode: Mode,
    fromLocation: string,
    fromCoordinates: string,
    toLocation: string,
    toCoordinates: string)

  /** The validated request; the client's form data has the same shape. */
  datatype Request = Request(
    travelerName: string,
    baseLocation: string,
    travelDate: string,
    multipleTransport: bool,
    segments: seq<SegmentInput>)

  /** z.enum(["car", "train", "air", "bus", "bike"]) */
  function ModeOf(name: string): (r: Option<Mode>)
    ensures r.Some? ==> ModeName(r.value) == name
    ensures forall m :: ModeName(m) == name ==> r == Some(m)
  {
    if name == "car" then Some(Car)
    else if name == "train" then Some(Train)
    else if name == "air" then Some(Air)
    else if name == "bus" then Some(Bus)
    else if name == "bike" then Some(Bike)
    else None
  }

  /** The segment object schema: an enumerated mode and four non-empty strings. */
  predicate ValidRawSegment(s: RawSegment)
  {
    && ModeOf(s.transportMode).Some?
    && s.fromLocation != ""
    && s.fromCoordinates != ""
    && s.toLocation != ""
    && s.toCoordinates != ""
  }

  /** createItinerarySchema: three non-empty identity strings and 1 to 5 valid segments. */
  predicate ValidRawRequest(r: RawRequest)
  {
    && r.travelerName != ""
    && r.baseLocation != ""
    && r.travelDate != ""
    && 1 <= |r.segments| <= MaxSegments
    && forall i | 0 <= i < |r.segments| :: ValidRawSegment(r.segments[i])
  }

  /** The string constraints of a segment, for data whose mode is already typed. */
  predicate WellFormedSegment(s: SegmentInput)
  {
    s.fromLocation != "" && s.fromCoordinates != "" && s.toLocation != "" && s.toCoordinates != ""
  }

  predicate WellFormedRequest(r: Request)
  {
    && r.travelerName != ""
    && r.baseLocation != ""
    && r.travelDate != ""
    && 1 <= |r.segments| <= MaxSegments
    && forall i | 0 <= i < |r.segments| :: WellFormedSegment(r.segments[i])
  }

  /** JSON serialisation of a typed segment (the mode becomes its name). */
  function EncodeSegment(s: SegmentInput): RawSegment
  {
    RawSegment(ModeName(s.transportMode), s.fromLocation, s.fromCoordinates, s.toLocation, s.toCoordinates)
  }

  function EncodeSegments(segs: seq<SegmentInput>): (raws: seq<RawSegment>)
    ensures |raws| == |segs|
    ensures forall i | 0 <= i < |segs| :: raws[i] == EncodeSegment(segs[i])
  {
    if segs == [] then [] else [EncodeSegment(segs[0])] + EncodeSegments(segs[1..])
  }

  /** The body the client sends for its form data. */
  function Encode(r: Request): RawRequest
  {
    RawRequest(r.travelerName, r.baseLocation, r.travelDate, r.multipleTransport, EncodeSegments(r.segments))
  }

  function ParseSegment(raw: RawSegment): (r: Option<SegmentInput>)
    ensures r.Some? <==> ValidRawSegment(raw)
    ensures r.Some? ==> EncodeSegment(r.value) == raw && WellFormedSegment(r.value)
  {
    match ModeOf(raw.transportMode)
    case None => None
    case Some(m) =>
      if raw.fromLocation != "" && raw.fromCoordinates != "" && raw.toLocation != "" && raw.toCoordinates != ""
      then Some(SegmentInput(m, raw.fromLocation, raw.fromCoordinates, raw.toLocation, raw.toCoordinates))
      else None
  }

  function ParseSegments(raws: seq<RawSegment>): (r: Option<seq<SegmentInput>>)
    ensures r.Some? <==> forall i | 0 <= i < |raws| :: ValidRawSegment(raws[i])
    ensures r.Some? ==> EncodeSegments(r.value) == raws
    ensures r.Some? ==> forall i | 0 <= i < |r.value| :: WellFormedSegment(r.value[i])
  {
    if raws == [] then Some([])
    else
      match ParseSegment(raws[0])
      case None => None
      case Some(s) =>
        match ParseSegments(raws[1..])
        case None => None
        case Some(rest) => Some([s] + rest)
  }

  /**
   * createItinerarySchema.parse: succeeds exactly on valid bodies, and what
   * it returns serialises back to the body it came from.
   */
  function Parse(raw: RawRequest): (r: Option<Request>)
    ensures r.Some? <==> ValidRawRequest(raw)
    ensures r.Some? ==> Encode(r.value) == raw && WellFormedRequest(r.value)
  {
    if raw.travelerName == "" || raw.baseLocation == "" || raw.travelDate == ""
       || !(1 <= |raw.segments| <= MaxSegments)
    then None
    else
      match ParseSegments(raw.segments)
      case None => None
      case Some(segs) =>
        Some(Request(raw.travelerName, raw.baseLocation, raw.travelDate, raw.multipleTransport, segs))
  }

  /** The mode names and the enumeration check are inverse to each other. */
  lemma ModeRoundTrip(m: Mode)
    ensures ModeOf(ModeName(m)) == Some(m)
  {
  }

  /** Encoding a typed request is injective on segments. */
  lemma {:induction false} EncodeSegmentsInjective(a: seq<SegmentInput>, b: seq<SegmentInput>)
    requires EncodeSegments(a) == EncodeSegments(b)
    ensures a == b
  {
    assert |a| == |b|;
    forall i | 0 <= i < |a| ensures a[i] == b[i] {
      assert EncodeSegment(a[i]) == EncodeSegment(b[i]);
      ModeRoundTrip(a[i].transportMode);
      ModeRoundTrip(b[i].transportMode);
    }
  }

  /** A well-formed typed request passes validation and parses back to itself. */
  lemma ParseEncode(req: Request)
    requires WellFormedRequest(req)
    ensures Parse(Encode(req)) == Some(req)
  {
    var raw := Encode(req);
    forall i | 0 <= i < |raw.segments| ensures ValidRawSegment(raw.segments[i]) {
      ModeRoundTrip(req.segments[i].transportMode);
    }
    var parsed := Parse(raw).value;
    EncodeSegmentsInjective(parsed.segments, req.segments);
  }

  /** The serialised form data is accepted exactly when it is well formed. */
  lemma EncodedValidIffWellFormed(req: Request)
    ensures ValidRawRequest(Encode(req)) <==> WellFormedRequest(req)
  {
    if WellFormedRequest(req) {
      ParseEncode(req);
    } else if ValidRawRequest(Encode(req)) {
      var parsed := Parse(Encode(req)).value;
      EncodeSegmentsInjective(parsed.segments, req.segments);
    }
  }

  /** The multipleTransport flag never decides acceptance. */
  lemma FlagIsFree(raw: RawRequest, flag: bool)
    ensures ValidRawRequest(raw.(multipleTransport := flag)) == ValidRawRequest(raw)
  {
  }

  /** The legs the aggregators read: each segment's mode and its computed distance. */
  function Legs(segs: seq<SegmentInput>, geo: Geodesy): seq<Leg>
  {
    seq(|segs|, i requires 0 <= i < |segs| =>
      Leg(segs[i].transportMode, geo.Between(segs[i].fromCoordinates, segs[i].toCoordinates)))
  }
}
