/**
 * The travel-details step of the wizard (travel-details-step.tsx): the
 * "multiple modes?" flag and the editable list of segments, which the step
 * grows and shrinks in place and keeps between one and five entries long.
 */
module TravelDetails {
  import opened Wrappers
  import opened Carbon
  import opened Schema

  /** What addSegment appends: a car segment with every text field empty. */
  const BlankSegment := SegmentInput(Car, "", "", "", "")

  /** TravelDetailsData: what the step hands to the wizard. */
  datatype TravelDetailsData = TravelDetailsData(multipleTransport: bool, segments: seq<SegmentInput>)

  /**
   * travelDetailsSchema: one to five segments, each with its four strings
   * non-empty (the mode is one of the five by its type).
   */
  predicate ValidDetails(d: TravelDetailsData)
  {
    && 1 <= |d.segments| <= MaxSegments
    && forall i | 0 <= i < |d.segments| :: WellFormedSegment(d.segments[i])
  }

  /** The user's actions on the list: the add button, a delete button, a radio choice. */
  datatype Edit = Add | Remove(index: int) | Choose(value: string)

  /** A delete button exists only for a segment that is shown. */
  predicate Applicable(s: seq<SegmentInput>, e: Edit)
  {
    e.Remove? ==> 0 <= e.index < |s|
  }

  /** The segment list after one action, as the step's handlers leave it. */
  function ApplyEdit(s: seq<SegmentInput>, e: Edit): (r: seq<SegmentInput>)
    requires Applicable(s, e)
    ensures forall x | x in r :: x in s || x == BlankSegment
    ensures e.Add? ==> s <= r && |r| <= |s| + 1
    ensures e.Remove? ==> multiset(r) <= multiset(s) && |s| - 1 <= |r|
    ensures e.Choose? ==> r <= s && (s != [] ==> r != [])
  {
    match e
    case Add => if |s| < MaxSegments then s + [BlankSegment] else s
    case Remove(i) =>
      if |s| > 1 then
        assert s == s[..i] + [s[i]] + s[i + 1..];
        s[..i] + s[i + 1..]
      else s
    case Choose(value) => if value != "true" && |s| > 1 then [s[0]] else s
  }

  /** The segment list after a run of actions, each applicable when it is made. */
  function ApplyEdits(s: seq<SegmentInput>, edits: seq<Edit>): seq<SegmentInput>
    decreases |edits|
  {
    if edits == [] then s
    else if Applicable(s, edits[0]) then ApplyEdits(ApplyEdit(s, edits[0]), edits[1..])
    else ApplyEdits(s, edits[1..])
  }

  /** One action keeps the length between 1 and 5. */
  lemma EditKeepsCountInRange(s: seq<SegmentInput>, e: Edit)
    requires 1 <= |s| <= MaxSegments
    requires Applicable(s, e)
    ensures 1 <= |ApplyEdit(s, e)| <= MaxSegments
  {
  }

  /** Starting from one to five segments, no run of actions leaves that range. */
  lemma {:induction false} EditsKeepCountInRange(s: seq<SegmentInput>, edits: seq<Edit>)
    requires 1 <= |s| <= MaxSegments
    ensures 1 <= |ApplyEdits(s, edits)| <= MaxSegments
    decreases |edits|
  {
    if edits != [] {
      if Applicable(s, edits[0]) {
        EditKeepsCountInRange(s, edits[0]);
        EditsKeepCountInRange(ApplyEdit(s, edits[0]), edits[1..]);
      } else {
        EditsKeepCountInRange(s, edits[1..]);
      }
    }
  }

  /** Deleting the segment just added gives back the list as it was. */
  lemma RemoveUndoesAdd(s: seq<SegmentInput>)
    requires 1 <= |s| < MaxSegments
    ensures Applicable(ApplyEdit(s, Add), Remove(|s|))
    ensures ApplyEdit(ApplyEdit(s, Add), Remove(|s|)) == s
  {
    assert (s + [BlankSegment])[..|s|] == s;
  }

  /** Choosing the same answer twice changes nothing the second time. */
  lemma ChooseIsIdempotent(s: seq<SegmentInput>, value: string)
    ensures ApplyEdit(ApplyEdit(s, Choose(value)), Choose(value)) == ApplyEdit(s, Choose(value))
  {
  }

  /**
   * The form state of the step: the flag and the field array. The list is
   * changed in place through append and remove, like useFieldArray does.
   */
  class SegmentFields {
    var multipleTransport: bool
    var fields: seq<SegmentInput>

    /** `useForm({ defaultValues: data })` */
    constructor (data: TravelDetailsData)
      ensures multipleTransport == data.multipleTransport && fields == data.segments
    {
      multipleTransport := data.multipleTransport;
      fields := data.segments;
    }

    /** addSegment: one blank car segment more while there are fewer than five. */
    method AddSegment()
      modifies this
      ensures |old(fields)| < MaxSegments ==> fields == old(fields) + [BlankSegment]
      ensures |old(fields)| >= MaxSegments ==> fields == old(fields)
      ensures fields == ApplyEdit(old(fields), Add)
      ensures multipleTransport == old(multipleTransport)
    {
      if |fields| < MaxSegments {
        fields := fields + [BlankSegment];
      }
    }

    /** removeSegment: drops segment `index` unless it is the only one. */
    method RemoveSegment(index: int)
      requires 0 <= index < |fields|
      modifies this
      ensures |old(fields)| > 1 ==> fields == old(fields)[..index] + old(fields)[index + 1..]
      ensures |old(fields)| <= 1 ==> fields == old(fields)
      ensures fields == ApplyEdit(old(fields), Remove(index))
      ensures multipleTransport == old(multipleTransport)
    {
      if |fields| > 1 {
        RemoveAt(index);
      }
    }

    /** useFieldArray's remove(index), with no guard of its own. */
    method RemoveAt(index: int)
      requires 0 <= index < |fields|
      modifies this
      ensures fields == old(fields)[..index] + old(fields)[index + 1..]
      ensures multipleTransport == old(multipleTransport)
    {
      fields := fields[..index] + fields[index + 1..];
    }

    /**
     * handleMultipleTransportChange: sets the flag to `value == "true"`; on a
     * switch to a single mode, removes the segments from the last down to
     * index 1, which leaves exactly the first one.
     */
    method HandleMultipleTransportChange(value: string)
      modifies this
      ensures multipleTransport == (value == "true")
      ensures value != "true" && |old(fields)| > 1 ==> fields == [old(fields)[0]]
      ensures value == "true" || |old(fields)| <= 1 ==> fields == old(fields)
      ensures fields == ApplyEdit(old(fields), Choose(value))
    {
      var isMultiple := value == "true";
      multipleTransport := isMultiple;
      if !isMultiple && |fields| > 1 {
        var i := |fields| - 1;
        while i > 0
          invariant 0 <= i < |old(fields)|
          invariant fields == old(fields)[..i + 1]
          invariant multipleTransport == isMultiple
          decreases i
        {
          RemoveAt(i);
          i := i - 1;
        }
      }
    }

    /** Sets the mode chosen in segment `index`'s select. */
    method SetTransportMode(index: int, mode: Mode)
      requires 0 <= index < |fields|
      modifies this
      ensures fields == old(fields)[index := old(fields)[index].(transportMode := mode)]
      ensures multipleTransport == old(multipleTransport)
    {
      fields := fields[index := fields[index].(transportMode := mode)];
    }

    /** The from-location search: writes the address and its coordinates together. */
    method SetFrom(index: int, address: string, coordinates: string)
      requires 0 <= index < |fields|
      modifies this
      ensures fields == old(fields)[index := old(fields)[index].(fromLocation := address, fromCoordinates := coordinates)]
      ensures multipleTransport == old(multipleTransport)
    {
      fields := fields[index := fields[index].(fromLocation := address, fromCoordinates := coordinates)];
    }

    /** The to-location search: writes the address and its coordinates together. */
    method SetTo(index: int, address: string, coordinates: string)
      requires 0 <= index < |fields|
      modifies this
      ensures fields == old(fields)[index := old(fields)[index].(toLocation := address, toCoordinates := coordinates)]
      ensures multipleTransport == old(multipleTransport)
    {
      fields := fields[index := fields[index].(toLocation := address, toCoordinates := coordinates)];
    }

    /**
     * `form.handleSubmit(onSubmit)`: the data reaches onNext only when it
     * passes the step's schema.
     */
    method Submit() returns (r: Option<TravelDetailsData>)
      ensures r.Some? <==> ValidDetails(TravelDetailsData(multipleTransport, fields))
      ensures r.Some? ==> r.value == TravelDetailsData(multipleTransport, fields)
    {
      var data := TravelDetailsData(multipleTransport, fields);
      if ValidDetails(data) {
        r := Some(data);
      } else {
        r := None;
      }
    }
  }

  /** A blank segment fails the schema, so a step left untouched cannot be submitted. */
  lemma BlankSegmentIsIncomplete()
    ensures !WellFormedSegment(BlankSegment)
  {
  }

  /**
   * The step's schema agrees with the server's on the segments: valid details
   * together with non-empty identity fields make a request the server accepts.
   */
  lemma ValidDetailsMakeValidRequest(d: TravelDetailsData, travelerName: string, baseLocation: string, travelDate: string)
    requires ValidDetails(d)
    requires travelerName != "" && baseLocation != "" && travelDate != ""
    ensures ValidRawRequest(Encode(Request(travelerName, baseLocation, travelDate, d.multipleTransport, d.segments)))
  {
    EncodedValidIffWellFormed(Request(travelerName, baseLocation, travelDate, d.multipleTransport, d.segments));
  }
}
