/**
 * The request handlers of server/routes.ts that touch the emissions data:
 * POST /api/itineraries (validate, create, store each segment with its
 * emissions, write the total back) and GET /api/itineraries/:id.
 */
module Routes {
  import opened Wrappers
  import opened Carbon
  import opened Schema
  import opened Storage

  /** 400 with a validation message, or the created itinerary with its total. */
  datatype PostResponse = BadRequest | Created(itinerary: Itinerary)

  /** 404, or the itinerary together with its segments. */
  datatype GetResponse = NotFound | Found(itinerary: Itinerary, segments: seq<Segment>)

  /** The row the handler stores for the i-th (0-based) input segment. */
  function SegmentRow(itineraryId: int, i: nat, s: SegmentInput, geo: Geodesy): NewSegment
  {
    var distance := geo.Between(s.fromCoordinates, s.toCoordinates);
    NewSegment(itineraryId, i + 1, s.transportMode, s.fromLocation, s.fromCoordinates,
               s.toLocation, s.toCoordinates, distance, Emissions(s.transportMode, distance))
  }

  /**
   * The segments a successful POST stores, with ids first, first+1, ...
   * The ensures spell out the comprehension pointwise: the handler proofs
   * need that form, and what the stored segments are is StoredSegmentsFacts.
   */
  function StoredSegments(itineraryId: int, first: int, segs: seq<SegmentInput>, geo: Geodesy): (r: seq<Segment>)
    ensures |r| == |segs|
    ensures forall i | 0 <= i < |segs| :: r[i] == StampSegment(SegmentRow(itineraryId, i, segs[i], geo), first + i)
  {
    seq(|segs|, i requires 0 <= i < |segs| => StampSegment(SegmentRow(itineraryId, i, segs[i], geo), first + i))
  }

  function SegmentEmissions(s: Segment): real
  {
    s.emissions
  }

  /**
   * The stored segments belong to the new itinerary, are numbered 1..n in
   * input order, each carries the emissions of its own mode and distance,
   * and their emissions add up to the total the handler computes.
   */
  lemma StoredSegmentsFacts(itineraryId: int, first: int, segs: seq<SegmentInput>, geo: Geodesy)
    ensures var stored := StoredSegments(itineraryId, first, segs, geo);
      && (forall i | 0 <= i < |stored| ::
            && stored[i].itineraryId == itineraryId
            && stored[i].segmentOrder == i + 1
            && stored[i].emissions == Emissions(stored[i].transportMode, stored[i].distance))
      && SumOf(stored, SegmentEmissions) == TotalEmissions(Legs(segs, geo))
  {
    var stored := StoredSegments(itineraryId, first, segs, geo);
    SumOfPointwise(stored, SegmentEmissions, Legs(segs, geo), LegEmissions);
  }

  /** POST /api/itineraries: a body that fails validation is answered 400 and changes nothing. */
  method PostItinerary(store: MemStorage, body: RawRequest, geo: Geodesy, now: Timestamp) returns (resp: PostResponse)
    requires store.Valid()
    modifies store
    ensures store.Valid()
    ensures !ValidRawRequest(body) <==> resp == BadRequest
    ensures !ValidRawRequest(body) ==> unchanged(store)
    ensures ValidRawRequest(body) ==>
      var req := Parse(body).value;
      var id := old(store.currentItineraryId);
      var first := old(store.currentSegmentId);
      var stored := StoredSegments(id, first, req.segments, geo);
      && resp == Created(Itinerary(id, req.travelerName, req.baseLocation, req.travelDate,
                                   req.multipleTransport, TotalEmissions(Legs(req.segments, geo)), now))
      && store.itineraries == old(store.itineraries)[id := resp.itinerary]
      && store.currentItineraryId == id + 1
      && store.currentSegmentId == first + |req.segments|
      && Extends(old(store.segments), store.segments, first, stored, |stored|)
      && (old(store.SegmentsReferenceItineraries()) ==>
            store.SegmentsReferenceItineraries() && store.GetSegmentsByItineraryId(id) == stored)
  {
    var parsed := Parse(body);
    if parsed.None? {
      return BadRequest;
    }
    var itinerary := CreateFromRequest(store, parsed.value, geo, now);
    resp := Created(itinerary);
  }

  /**
   * The body of the POST handler once the request is valid: create the
   * itinerary with total 0, store each segment, write the total back.
   */
  method CreateFromRequest(store: MemStorage, req: Request, geo: Geodesy, now: Timestamp) returns (itinerary: Itinerary)
    requires store.Valid()
    modifies store
    ensures store.Valid()
    ensures
      var id := old(store.currentItineraryId);
      var first := old(store.currentSegmentId);
      var stored := StoredSegments(id, first, req.segments, geo);
      && itinerary == Itinerary(id, req.travelerName, req.baseLocation, req.travelDate,
                                req.multipleTransport, TotalEmissions(Legs(req.segments, geo)), now)
      && store.itineraries == old(store.itineraries)[id := itinerary]
      && store.currentItineraryId == id + 1
      && store.currentSegmentId == first + |req.segments|
      && Extends(old(store.segments), store.segments, first, stored, |stored|)
      && (old(store.SegmentsReferenceItineraries()) ==>
            store.SegmentsReferenceItineraries() && store.GetSegmentsByItineraryId(id) == stored)
  {
    var created := store.CreateItinerary(
      NewItinerary(req.travelerName, req.baseLocation, req.travelDate, req.multipleTransport, 0.0), now);
    ghost var first := store.currentSegmentId;
    ghost var stored := StoredSegments(created.id, first, req.segments, geo);
    ghost var referenced := old(store.SegmentsReferenceItineraries()) && store.SegmentsReferenceItineraries();
    ghost var unused := store.NoSegmentOf(created.id);
    ghost var before := store.segments;
    var totalEmissions := StoreSegments(store, created.id, req.segments, geo);

    store.UpdateItineraryEmissions(created.id, totalEmissions);
    itinerary := created.(totalEmissions := totalEmissions);

    if referenced {
      assert unused;
      PostedSegmentsListed(before, store.segments, first, created.id, req.segments, geo);
      assert store.GetSegmentsByItineraryId(created.id) == stored;
    }
  }

  /**
   * Once an itinerary id is fresh (no earlier segment refers to it), the
   * segments listed for it are exactly the ones the POST stored, in input order.
   */
  lemma PostedSegmentsListed(before: map<int, Segment>, m: map<int, Segment>, first: int,
                             itineraryId: int, segs: seq<SegmentInput>, geo: Geodesy)
    requires 1 <= first && SegmentTable(before, first)
    requires SegmentTable(m, first + |segs|)
    requires forall id | id in before :: before[id].itineraryId != itineraryId
    requires var stored := StoredSegments(itineraryId, first, segs, geo);
      Extends(before, m, first, stored, |stored|)
    ensures SegmentsOf(m, first + |segs|, itineraryId) == StoredSegments(itineraryId, first, segs, geo)
  {
    var stored := StoredSegments(itineraryId, first, segs, geo);
    StoredSegmentsFacts(itineraryId, first, segs, geo);
    SegmentsOfFreshItinerary(before, m, first, stored, itineraryId);
    assert first + |stored| == first + |segs|;
  }

  /** The loop of the POST handler: store each segment with its order and emissions, summing as it goes. */
  method StoreSegments(store: MemStorage, itineraryId: int, segs: seq<SegmentInput>, geo: Geodesy)
    returns (totalEmissions: real)
    requires store.Valid()
    modifies store
    ensures store.Valid()
    ensures store.itineraries == old(store.itineraries)
    ensures store.currentItineraryId == old(store.currentItineraryId)
    ensures store.currentSegmentId == old(store.currentSegmentId) + |segs|
    ensures var stored := StoredSegments(itineraryId, old(store.currentSegmentId), segs, geo);
      Extends(old(store.segments), store.segments, old(store.currentSegmentId), stored, |stored|)
    ensures old(store.SegmentsReferenceItineraries()) && itineraryId in store.itineraries ==>
              store.SegmentsReferenceItineraries()
    ensures totalEmissions == TotalEmissions(Legs(segs, geo))
  {
    ghost var legs := Legs(segs, geo);
    ghost var first := store.currentSegmentId;
    ghost var stored := StoredSegments(itineraryId, first, segs, geo);
    ghost var referenced := old(store.SegmentsReferenceItineraries()) && itineraryId in store.itineraries;
    totalEmissions := 0.0;
    for i := 0 to |segs|
      invariant store.Valid()
      invariant store.itineraries == old(store.itineraries)
      invariant store.currentItineraryId == old(store.currentItineraryId)
      invariant store.currentSegmentId == first + i
      invariant Extends(old(store.segments), store.segments, first, stored, i)
      invariant referenced ==> store.SegmentsReferenceItineraries()
      invariant totalEmissions == TotalEmissions(legs[..i])
    {
      var segment := segs[i];
      var distance := geo.Between(segment.fromCoordinates, segment.toCoordinates);
      var emissions := Emissions(segment.transportMode, distance);
      totalEmissions := totalEmissions + emissions;
      ghost var before := store.segments;
      var created := store.CreateSegment(NewSegment(itineraryId, i + 1, segment.transportMode, segment.fromLocation,
                                                    segment.fromCoordinates, segment.toLocation,
                                                    segment.toCoordinates, distance, emissions));
      assert created == stored[i];
      ExtendsStep(old(store.segments), before, first, stored, i);
      TotalEmissionsStep(legs, i);
    }
    assert legs[..|segs|] == legs;
  }

  /** GET /api/itineraries: every stored itinerary, in creation order. */
  method ListItineraries(store: MemStorage) returns (resp: seq<Itinerary>)
    requires store.Valid()
    ensures |resp| == store.currentItineraryId - 1
    ensures forall i | 0 <= i < |resp| :: resp[i] == store.itineraries[i + 1] && resp[i].id == i + 1
    ensures forall id | id in store.itineraries :: store.itineraries[id] in resp
  {
    resp := store.GetAllItineraries();
  }

  /** GET /api/itineraries/:id (the id already converted to a number). */
  method GetItinerary(store: MemStorage, id: int) returns (resp: GetResponse)
    requires store.Valid()
    ensures resp.NotFound? <==> id !in store.itineraries
    ensures resp.Found? ==> resp.itinerary == store.itineraries[id] && resp.itinerary.id == id
    ensures resp.Found? ==> resp.segments == store.GetSegmentsByItineraryId(id)
  {
    var itinerary := store.GetItinerary(id);
    if itinerary.None? {
      return NotFound;
    }
    var segments := store.GetSegmentsByItineraryId(id);
    resp := Found(itinerary.value, segments);
  }
}
