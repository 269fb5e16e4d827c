/**
 * The in-memory store (server/storage.ts, class MemStorage): two maps keyed
 * by id and two id counters. Ids are handed out from 1 and nothing is ever
 * deleted, so the keys of each map are exactly 1 up to its counter minus 1,
 * and a map's insertion order is its id order.
 */
module Storage {
  import opened Wrappers
  import opened Carbon

  /** The clock reading the store stamps on a new itinerary (createdAt). */
  type Timestamp = int

  /** InsertTravelItinerary: an itinerary row without id and createdAt. */
  datatype NewItinerary = NewItinerary(
    travelerName: string,
    baseLocation: string,
    travelDate: string,
    multipleTransport: bool,
    totalEmissions: real)

  datatype Itinerary = Itinerary(
    id: int,
    travelerName: string,
    baseLocation: string,
    travelDate: string,
    multipleTransport: bool,
    totalEmissions: real,
    createdAt: Timestamp)

  /** InsertTravelSegment: a segment row without id. */
  datatype NewSegment = NewSegment(
    itineraryId: int,
    segmentOrder: int,
    transportMode: Mode,
    fromLocation: string,
    fromCoordinates: string,
    toLocation: string,
    toCoordinates: string,
    distance: real,
    emissions: real)

  datatype Segment = Segment(
    id: int,
    itineraryId: int,
    segmentOrder: int,
    transportMode: Mode,
    fromLocation: string,
    fromCoordinates: string,
    toLocation: string,
    toCoordinates: string,
    distance: real,
    emissions: real)

  /** `{ ...insert, id, createdAt }` */
  function StampItinerary(x: NewItinerary, id: int, now: Timestamp): Itinerary
  {
    Itinerary(id, x.travelerName, x.baseLocation, x.travelDate, x.multipleTransport, x.totalEmissions, now)
  }

  /** `{ ...insert, id }` */
  function StampSegment(x: NewSegment, id: int): Segment
  {
    Segment(id, x.itineraryId, x.segmentOrder, x.transportMode, x.fromLocation, x.fromCoordinates,
            x.toLocation, x.toCoordinates, x.distance, x.emissions)
  }

  /** The shape both maps keep: keys 1..next-1, each record filed under its own id. */
  ghost predicate ItineraryTable(m: map<int, Itinerary>, next: int)
  {
    && (forall id :: id in m <==> 1 <= id < next)
    && (forall id | id in m :: m[id].id == id)
  }

  ghost predicate SegmentTable(m: map<int, Segment>, next: int)
  {
    && (forall id :: id in m <==> 1 <= id < next)
    && (forall id | id in m :: m[id].id == id)
  }

  /** `Array.from(m.values())` for a map filled with keys 1..n in order. */
  function Listed<V>(m: map<int, V>, n: nat): (r: seq<V>)
    requires forall i | 1 <= i <= n :: i in m
    ensures |r| == n
    ensures forall i | 0 <= i < n :: r[i] == m[i + 1]
  {
    if n == 0 then [] else Listed(m, n - 1) + [m[n]]
  }

  predicate IdsAscending(s: seq<Segment>)
  {
    forall i, j | 0 <= i < j < |s| :: s[i].id < s[j].id
  }

  predicate OrderAscending(s: seq<Segment>)
  {
    forall i, j | 0 <= i < j < |s| :: s[i].segmentOrder <= s[j].segmentOrder
  }

  /** a comes before b by segmentOrder, ties broken by id (that is, by insertion order). */
  predicate Precedes(a: Segment, b: Segment)
  {
    a.segmentOrder < b.segmentOrder || (a.segmentOrder == b.segmentOrder && a.id < b.id)
  }

  predicate OrderThenIdAscending(s: seq<Segment>)
  {
    forall i, j | 0 <= i < j < |s| :: Precedes(s[i], s[j])
  }

  /** `.filter(segment => segment.itineraryId === k)` */
  function OfItinerary(s: seq<Segment>, k: int): (r: seq<Segment>)
    ensures forall x :: x in r <==> x in s && x.itineraryId == k
  {
    if s == [] then []
    else
      var rest := OfItinerary(s[1..], k);
      if s[0].itineraryId == k then [s[0]] + rest else rest
  }

  lemma {:induction false} OfItineraryAppend(a: seq<Segment>, b: seq<Segment>, k: int)
    ensures OfItinerary(a + b, k) == OfItinerary(a, k) + OfItinerary(b, k)
    decreases |a|
  {
    if a == [] {
      assert a + b == b;
    } else {
      OfItineraryAppend(a[1..], b, k);
      assert (a + b)[1..] == a[1..] + b;
    }
  }

  /** Filtering keeps the relative order of what it keeps. */
  lemma {:induction false} OfItineraryKeepsIdOrder(s: seq<Segment>, k: int)
    requires IdsAscending(s)
    ensures IdsAscending(OfItinerary(s, k))
    decreases |s|
  {
    if s != [] {
      OfItineraryKeepsIdOrder(s[1..], k);
      var rest := OfItinerary(s[1..], k);
      forall y | y in rest ensures s[0].id < y.id {
        var j :| 0 <= j < |s[1..]| && s[1..][j] == y;
        assert s[j + 1] == y;
      }
    }
  }

  /** Filtering a list that only holds segments of k changes nothing. */
  lemma {:induction false} OfItineraryAllMatch(s: seq<Segment>, k: int)
    requires forall i | 0 <= i < |s| :: s[i].itineraryId == k
    ensures OfItinerary(s, k) == s
    decreases |s|
  {
    if s != [] {
      OfItineraryAllMatch(s[1..], k);
    }
  }

  /** Places x before the first element whose order is not smaller, so x precedes its ties. */
  function Insert(x: Segment, s: seq<Segment>): (r: seq<Segment>)
    ensures forall y :: y in r <==> y == x || y in s
    ensures multiset(r) == multiset(s) + multiset{x}
  {
    if s == [] || x.segmentOrder <= s[0].segmentOrder then [x] + s
    else
      assert s == [s[0]] + s[1..];
      [s[0]] + Insert(x, s[1..])
  }

  lemma {:induction false} InsertKeepsOrder(x: Segment, s: seq<Segment>)
    requires OrderAscending(s)
    ensures OrderAscending(Insert(x, s))
    decreases |s|
  {
    if s != [] && s[0].segmentOrder < x.segmentOrder {
      InsertKeepsOrder(x, s[1..]);
      var rest := Insert(x, s[1..]);
      forall y | y in rest ensures s[0].segmentOrder <= y.segmentOrder {
        if y != x {
          var j :| 0 <= j < |s[1..]| && s[1..][j] == y;
          assert s[j + 1] == y;
        }
      }
      var r := [s[0]] + rest;
      forall i, j | 0 <= i < j < |r| ensures r[i].segmentOrder <= r[j].segmentOrder {
        if i == 0 {
          assert r[j] == rest[j - 1] && r[j] in rest;
        } else {
          assert r[i] == rest[i - 1] && r[j] == rest[j - 1];
        }
      }
    }
  }

  lemma {:induction false} InsertKeepsTies(x: Segment, s: seq<Segment>)
    requires OrderThenIdAscending(s)
    requires forall y | y in s :: x.id < y.id
    ensures OrderThenIdAscending(Insert(x, s))
    decreases |s|
  {
    if s == [] {
    } else if x.segmentOrder <= s[0].segmentOrder {
      PrependKeepsTies(x, s);
    } else {
      InsertKeepsTies(x, s[1..]);
      var rest := Insert(x, s[1..]);
      forall y | y in rest ensures Precedes(s[0], y) {
        if y != x {
          var j :| 0 <= j < |s[1..]| && s[1..][j] == y;
          assert s[j + 1] == y;
        }
      }
      PrependKeepsTies(s[0], rest);
    }
  }

  lemma PrependKeepsTies(x: Segment, s: seq<Segment>)
    requires OrderThenIdAscending(s)
    requires s != [] ==> Precedes(x, s[0]) || forall y | y in s :: Precedes(x, y)
    ensures OrderThenIdAscending([x] + s)
  {
    var r := [x] + s;
    forall i, j | 0 <= i < j < |r| ensures Precedes(r[i], r[j]) {
      if i == 0 {
        assert r[j] == s[j - 1] && r[j] in s;
        if j > 1 {
          assert Precedes(s[0], s[j - 1]);
        }
      } else {
        assert r[i] == s[i - 1] && r[j] == s[j - 1];
      }
    }
  }

  /**
   * `.sort((a, b) => a.segmentOrder - b.segmentOrder)`: an insertion sort,
   * stable like JavaScript's Array.prototype.sort.
   */
  function SortByOrder(s: seq<Segment>): (r: seq<Segment>)
    ensures forall y :: y in r <==> y in s
    ensures multiset(r) == multiset(s)
    ensures OrderAscending(r)
  {
    if s == [] then []
    else
      assert s == [s[0]] + s[1..];
      InsertKeepsOrder(s[0], SortByOrder(s[1..]));
      Insert(s[0], SortByOrder(s[1..]))
  }

  /** Segments with equal order come out in the order they went in. */
  lemma {:induction false} SortByOrderIsStable(s: seq<Segment>)
    requires IdsAscending(s)
    ensures OrderThenIdAscending(SortByOrder(s))
    decreases |s|
  {
    if s != [] {
      SortByOrderIsStable(s[1..]);
      forall y | y in SortByOrder(s[1..]) ensures s[0].id < y.id {
        var j :| 0 <= j < |s[1..]| && s[1..][j] == y;
        assert s[j + 1] == y;
      }
      InsertKeepsTies(s[0], SortByOrder(s[1..]));
    }
  }

  /** Sorting a list that is already in order changes nothing. */
  lemma {:induction false} SortByOrderOfOrdered(s: seq<Segment>)
    requires OrderThenIdAscending(s)
    ensures SortByOrder(s) == s
    decreases |s|
  {
    if s != [] {
      SortByOrderOfOrdered(s[1..]);
      assert s == [s[0]] + s[1..];
      if |s| > 1 {
        assert s[0].segmentOrder <= s[1].segmentOrder;
      }
    }
  }

  /** Every value of a table, and nothing else, is listed; in ascending id order. */
  lemma ListedSegments(m: map<int, Segment>, next: int)
    requires 1 <= next && SegmentTable(m, next)
    ensures forall x | x in Listed(m, next - 1) :: x.id in m && m[x.id] == x
    ensures forall id | id in m :: m[id] in Listed(m, next - 1)
    ensures IdsAscending(Listed(m, next - 1))
  {
    var r := Listed(m, next - 1);
    forall id | id in m ensures m[id] in r {
      assert r[id - 1] == m[id];
    }
  }

  /** getSegmentsByItineraryId over a segment table. */
  function SegmentsOf(m: map<int, Segment>, next: int, k: int): (r: seq<Segment>)
    requires 1 <= next && SegmentTable(m, next)
    ensures forall x | x in r :: x.id in m && m[x.id] == x && x.itineraryId == k
    ensures forall id | id in m && m[id].itineraryId == k :: m[id] in r
    ensures OrderAscending(r)
    ensures OrderThenIdAscending(r)
  {
    var all := Listed(m, next - 1);
    ListedSegments(m, next);
    OfItineraryKeepsIdOrder(all, k);
    SortByOrderIsStable(OfItinerary(all, k));
    SortByOrder(OfItinerary(all, k))
  }

  lemma OfItineraryNoneMatch(s: seq<Segment>, k: int)
    requires forall i | 0 <= i < |s| :: s[i].itineraryId != k
    ensures OfItinerary(s, k) == []
  {
    var r := OfItinerary(s, k);
    assert forall x | x in r :: false;
  }

  /** m holds everything before held, and the first n of added under ids first, first+1, ... */
  ghost predicate Extends(before: map<int, Segment>, m: map<int, Segment>, first: int, added: seq<Segment>, n: nat)
    requires n <= |added|
  {
    && (forall id | id in before :: id in m && m[id] == before[id])
    && (forall id | first <= id < first + n :: id in m && m[id] == added[id - first])
  }

  /**
   * After n segments with ids first..first+n-1, orders 1..n and itinerary k
   * are added to a table in which no segment belongs to k, the segments of
   * k are exactly those n, in the order they were added.
   */
  lemma SegmentsOfFreshItinerary(before: map<int, Segment>, m: map<int, Segment>, first: int, added: seq<Segment>, k: int)
    requires 1 <= first && SegmentTable(before, first)
    requires SegmentTable(m, first + |added|)
    requires Extends(before, m, first, added, |added|)
    requires forall id | id in before :: before[id].itineraryId != k
    requires forall i | 0 <= i < |added| :: added[i].itineraryId == k && added[i].segmentOrder == i + 1
    ensures SegmentsOf(m, first + |added|, k) == added
  {
    forall id | 1 <= id < first ensures m[id].itineraryId != k {
      assert id in before;
    }
    FreshItineraryFilter(m, first, added, k);
    SortByOrderOfOrdered(added);
  }

  /** The filter over the listed table finds exactly the added segments. */
  lemma FreshItineraryFilter(m: map<int, Segment>, first: int, added: seq<Segment>, k: int)
    requires 1 <= first
    requires forall id | 1 <= id < first + |added| :: id in m
    requires forall id | 1 <= id < first :: m[id].itineraryId != k
    requires forall id | first <= id < first + |added| :: m[id] == added[id - first]
    requires forall i | 0 <= i < |added| :: added[i].itineraryId == k
    ensures OfItinerary(Listed(m, first + |added| - 1), k) == added
  {
    var all := Listed(m, first + |added| - 1);
    var earlier := all[..first - 1];
    var later := all[first - 1..];
    assert all == earlier + later;
    EarlierSegmentsElsewhere(m, first, first + |added| - 1, k);
    assert forall i | 0 <= i < |earlier| :: earlier[i] == all[i];
    LaterSegmentsAdded(m, first, added);
    OfItineraryAppend(earlier, later, k);
    OfItineraryNoneMatch(earlier, k);
    OfItineraryAllMatch(added, k);
  }

  lemma EarlierSegmentsElsewhere(m: map<int, Segment>, first: int, last: nat, k: int)
    requires 1 <= first <= last + 1
    requires forall id | 1 <= id <= last :: id in m
    requires forall id | 1 <= id < first :: m[id].itineraryId != k
    ensures forall i | 0 <= i < first - 1 :: Listed(m, last)[i].itineraryId != k
  {
    var all := Listed(m, last);
    forall i | 0 <= i < first - 1 ensures all[i].itineraryId != k {
      assert all[i] == m[i + 1];
    }
  }

  lemma LaterSegmentsAdded(m: map<int, Segment>, first: int, added: seq<Segment>)
    requires 1 <= first
    requires forall id | 1 <= id < first + |added| :: id in m
    requires forall id | first <= id < first + |added| :: m[id] == added[id - first]
    ensures Listed(m, first + |added| - 1)[first - 1..] == added
  {
    var all := Listed(m, first + |added| - 1);
    forall i | 0 <= i < |added| ensures all[first - 1..][i] == added[i] {
      assert all[first - 1 + i] == m[first + i];
    }
  }

  lemma ExtendsStep(before: map<int, Segment>, m: map<int, Segment>, first: int, added: seq<Segment>, n: nat)
    requires n < |added|
    requires Extends(before, m, first, added, n)
    requires first + n !in before
    ensures Extends(before, m[first + n := added[n]], first, added, n + 1)
  {
  }

  /** MemStorage */
  class MemStorage {
    var itineraries: map<int, Itinerary>
    var segments: map<int, Segment>
    var currentItineraryId: int
    var currentSegmentId: int

    ghost predicate Valid()
      reads this
    {
      && 1 <= currentItineraryId
      && 1 <= currentSegmentId
      && ItineraryTable(itineraries, currentItineraryId)
      && SegmentTable(segments, currentSegmentId)
    }

    /** Every stored segment belongs to a stored itinerary (kept by the POST handler). */
    ghost predicate SegmentsReferenceItineraries()
      reads this
    {
      forall id | id in segments :: segments[id].itineraryId in itineraries
    }

    /** No stored segment refers to itinerary k. */
    ghost predicate NoSegmentOf(k: int)
      reads this
    {
      forall id | id in segments :: segments[id].itineraryId != k
    }

    constructor ()
      ensures Valid()
      ensures itineraries == map[] && segments == map[]
      ensures currentItineraryId == 1 && currentSegmentId == 1
    {
      itineraries := map[];
      segments := map[];
      currentItineraryId := 1;
      currentSegmentId := 1;
    }

    method CreateItinerary(x: NewItinerary, now: Timestamp) returns (r: Itinerary)
      requires Valid()
      modifies this
      ensures Valid()
      ensures r == StampItinerary(x, old(currentItineraryId), now)
      ensures itineraries == old(itineraries)[r.id := r]
      ensures currentItineraryId == old(currentItineraryId) + 1
      ensures segments == old(segments) && currentSegmentId == old(currentSegmentId)
      ensures GetItinerary(r.id) == Some(r)
      ensures old(SegmentsReferenceItineraries()) ==> SegmentsReferenceItineraries() && NoSegmentOf(r.id)
    {
      var id := currentItineraryId;
      currentItineraryId := currentItineraryId + 1;
      r := StampItinerary(x, id, now);
      itineraries := itineraries[id := r];
    }

    function GetItinerary(id: int): (r: Option<Itinerary>)
      reads this
      requires Valid()
      ensures r.Some? <==> 1 <= id < currentItineraryId
      ensures r.Some? ==> r.value == itineraries[id] && r.value.id == id
    {
      if id in itineraries then Some(itineraries[id]) else None
    }

    function GetAllItineraries(): (r: seq<Itinerary>)
      reads this
      requires Valid()
      ensures |r| == currentItineraryId - 1
      ensures forall i | 0 <= i < |r| :: r[i] == itineraries[i + 1] && r[i].id == i + 1
      ensures forall id | id in itineraries :: itineraries[id] in r
    {
      var r := Listed(itineraries, currentItineraryId - 1);
      assert forall id | id in itineraries :: r[id - 1] == itineraries[id];
      r
    }

    method CreateSegment(x: NewSegment) returns (r: Segment)
      requires Valid()
      modifies this
      ensures Valid()
      ensures r == StampSegment(x, old(currentSegmentId))
      ensures segments == old(segments)[r.id := r]
      ensures currentSegmentId == old(currentSegmentId) + 1
      ensures itineraries == old(itineraries) && currentItineraryId == old(currentItineraryId)
      ensures old(SegmentsReferenceItineraries()) && x.itineraryId in itineraries ==> SegmentsReferenceItineraries()
    {
      var id := currentSegmentId;
      currentSegmentId := currentSegmentId + 1;
      r := StampSegment(x, id);
      segments := segments[id := r];
    }

    function GetSegmentsByItineraryId(k: int): (r: seq<Segment>)
      reads this
      requires Valid()
      ensures forall x | x in r :: x.id in segments && segments[x.id] == x && x.itineraryId == k
      ensures forall id | id in segments && segments[id].itineraryId == k :: segments[id] in r
      ensures OrderThenIdAscending(r)
    {
      SegmentsOf(segments, currentSegmentId, k)
    }

    method UpdateItineraryEmissions(id: int, totalEmissions: real)
      requires Valid()
      modifies this
      ensures Valid()
      ensures id in old(itineraries) ==>
        itineraries == old(itineraries)[id := old(itineraries)[id].(totalEmissions := totalEmissions)]
      ensures id !in old(itineraries) ==> itineraries == old(itineraries)
      ensures segments == old(segments)
      ensures currentItineraryId == old(currentItineraryId) && currentSegmentId == old(currentSegmentId)
      ensures old(SegmentsReferenceItineraries()) ==> SegmentsReferenceItineraries()
    {
      if id in itineraries {
        var itinerary := itineraries[id];
        itineraries := itineraries[id := itinerary.(totalEmissions := totalEmissions)];
      }
    }
  }
}
