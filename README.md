# Travel carbon tracker: emissions core, store, handlers and wizard

This project models, in Dafny, the part of the travel itinerary and carbon
tracker that turns a travel plan into carbon figures and keeps them:

- **Carbon** (`client/src/lib/carbon-calculator.ts`): the five transport
  modes and their kg CO2/km factors, and `calculateEmissions`. It also has
  the two aggregations, `getTotalEmissions` and `getEmissionsByMode`. The
  second is an imperative loop over a five-key map.
- **Schema** (`shared/schema.ts`): the `createItinerarySchema` validation
  of a submitted plan, stated as a parser from the raw JSON shape (the mode
  as a string) to a typed request.
- **Storage** (`server/storage.ts`): the in-memory `MemStorage`. It has two
  id-keyed maps and two id counters, and the methods that create, fetch,
  list and update itineraries and segments. The segment query filters and
  then stably sorts by `segmentOrder`.
- **Routes** (`server/routes.ts`): the POST handler validates a plan,
  creates the itinerary, stores each segment with its emissions, and writes
  the total back. The two GET handlers list all itineraries or fetch one.
- **TravelDetails** (`travel-details-step.tsx`): the wizard step that edits
  the segment list in place. It can add, remove, and trim to one segment
  on a switch to a single mode, and it keeps the list at 1 to 5 entries.
- **TravelFormPage** (`pages/travel-form.tsx`): the three-step wizard,
  meaning the current step and the form data with their handlers.
- **Review** (`review-step.tsx`): the emissions preview the review step
  computes before submitting, and its display rules. Those are location
  truncation, mode capitalisation and base-location labels.

Emissions are exact `real`s, so sums and the per-mode breakdown satisfy
their identities exactly. The distance function and the parsing of
`"lat,lng"` strings are outside the model. They are passed in as the
function-valued fields of `Carbon.Geodesy`. Both the server and the review
step use `Geodesy.Between` in the same way. The server clock that stamps
`createdAt` is a `now` parameter.

Malformed coordinate strings are not rejected. `createItinerarySchema`
(shared/schema.ts:37-49) stops an unknown transport mode, but it checks
coordinate strings only for being non-empty. The handler and the review step
split them and convert them with `Number` without any check, so a malformed
one gives NaN distances and emissions rather than an error. In the model,
whatever `Geodesy` returns flows through unchanged.

Some definitions have no contract of their own and so no row below. The
members in the table state what they mean:

- `Schema.ValidRawSegment` and `Schema.ValidRawRequest` are
  `createItinerarySchema` (shared/schema.ts:37-49). `Schema.Parse` and
  `Schema.EncodedValidIffWellFormed` state what they accept.
- `TravelDetails.ValidDetails` is the step's `travelDetailsSchema`
  (travel-details-step.tsx:14-25). `TravelDetails.SegmentFields.Submit`
  and `TravelDetails.ValidDetailsMakeValidRequest` state what it accepts.
- `Carbon.Geodesy.Between` is the distance computation shared by
  server/routes.ts:29-31 and review-step.tsx:59-61. It parses both
  coordinate strings and calls the distance function.
- `Schema.Legs` is the mode and distance per segment that both callers
  derive from those lines.
- `Review.PreviewLegs` is what `getEmissionsByMode` reads of each preview
  entry (review-step.tsx:71). `Review.PreviewAgreesWithServer` proves
  it equals `Schema.Legs`.
- `Routes.SegmentRow` and `Routes.StoredSegments` are the rows the POST
  handler stores (server/routes.ts:37-47). `Routes.StoredSegmentsFacts`
  and `Routes.PostItinerary` state what they hold.

## Model

| member | source | states |
|---|---|---|
| Carbon.ModeName | client/src/lib/carbon-calculator.ts:2-8 | each mode's key is a non-empty lower-case word |
| Carbon.Factor | client/src/lib/carbon-calculator.ts:2-8 | every factor lies in [0, 0.2], and a factor is 0 exactly for bike |
| Carbon.Emissions | client/src/lib/carbon-calculator.ts:22-25 | emissions are non-negative for a non-negative distance, zero for bike, and positive for any other mode over a positive distance |
| Carbon.EmissionsPer100Km | client/src/lib/carbon-calculator.ts:2-8 | over 100 km: car 20, train 5, air 15, bus 8, bike 0 kg |
| Carbon.EmissionsLinear | client/src/lib/carbon-calculator.ts:22-25 | emissions are additive and scale with the distance, for every mode |
| Carbon.SumOf | client/src/lib/carbon-calculator.ts:28-30 | the left fold used by `reduce` is non-negative when every term is |
| Carbon.SumOfAppend | client/src/lib/carbon-calculator.ts:28-30 | the fold of a concatenation is the sum of the folds |
| Carbon.SumOfPermutation | client/src/lib/carbon-calculator.ts:28-30 | the fold does not depend on the order of its terms |
| Carbon.SumOfPointwise | client/src/lib/carbon-calculator.ts:28-30 | two folds agree when their terms agree position by position |
| Carbon.TotalEmissions | client/src/lib/carbon-calculator.ts:27-31 | getTotalEmissions is 0 for no segments, and non-negative when every distance is |
| Carbon.TotalEmissionsStep | client/src/lib/carbon-calculator.ts:28-30 | one more segment adds exactly its own emissions to the running total |
| Carbon.OfMode | client/src/lib/carbon-calculator.ts:42-44 | a leg is among the selected segments exactly when it is an input segment of that mode |
| Carbon.OfModeCounts | client/src/lib/carbon-calculator.ts:42-44 | each segment of the mode is kept exactly as many times as it occurs in the input, and no other segment is kept |
| Carbon.OfModeAppend | client/src/lib/carbon-calculator.ts:42-44 | selecting a mode commutes with concatenation, so the segments keep their input order |
| Carbon.ModeSumIsTotalOfMode | client/src/lib/carbon-calculator.ts:42-44 | a mode's breakdown value is the total emissions of just that mode's segments |
| Carbon.ModeSumStep | client/src/lib/carbon-calculator.ts:42-44 | one more segment adds its emissions to its own mode's value and nothing to the others |
| Carbon.UnusedModeSumsToZero | client/src/lib/carbon-calculator.ts:34-40 | a mode no segment uses keeps its initial 0 |
| Carbon.ModeSumsAddUp | client/src/lib/carbon-calculator.ts:27-46 | the five per-mode values add up to getTotalEmissions |
| Carbon.ByMode | client/src/lib/carbon-calculator.ts:33-46 | the breakdown has the five modes as keys; each holds the total emissions of that mode's segments, and the five values add up to getTotalEmissions |
| Carbon.EmissionsByMode | client/src/lib/carbon-calculator.ts:33-46 | the loop that starts all five keys at 0 and adds each segment under its mode yields the breakdown `ByMode`, with 0 for unused modes |
| Carbon.ByModeOfSums | client/src/lib/carbon-calculator.ts:33-46 | a five-key map holding each mode's accumulated sum is the breakdown, and holds 0 for a mode no segment uses |
| Carbon.ModeTotalIgnoresOrder | client/src/lib/carbon-calculator.ts:42-44 | reordering the segments leaves each mode's total unchanged |
| Carbon.ByModeIgnoresOrder | client/src/lib/carbon-calculator.ts:33-46 | reordering the segments leaves the whole breakdown unchanged |
| Carbon.AggregatesIgnoreOrder | client/src/lib/carbon-calculator.ts:27-46 | reordering the segments changes neither the total nor the breakdown |
| Schema.ModeOf | shared/schema.ts:43 | the mode enumeration accepts exactly the five names and maps each name back to its mode |
| Schema.ModeRoundTrip | shared/schema.ts:43 | parsing a mode's name gives the mode back |
| Schema.EncodeSegments | shared/schema.ts:42-48 | serialising segments keeps their number and order |
| Schema.ParseSegment | shared/schema.ts:42-47 | a segment parses exactly when its mode is enumerated and its four strings are non-empty, and it serialises back to its input |
| Schema.ParseSegments | shared/schema.ts:42-48 | the segment array parses exactly when every element does, and it serialises back to its input |
| Schema.Parse | shared/schema.ts:37-49 | createItinerarySchema.parse succeeds exactly on valid bodies (three non-empty strings and 1 to 5 valid segments), and the result is well formed and serialises back to the body |
| Schema.EncodeSegmentsInjective | shared/schema.ts:42-48 | distinct segment lists serialise differently |
| Schema.ParseEncode | shared/schema.ts:37-49 | a well-formed request passes validation and parses back to itself |
| Schema.EncodedValidIffWellFormed | shared/schema.ts:37-49 | serialised form data passes validation if and only if it is well formed |
| Schema.FlagIsFree | shared/schema.ts:41 | the multipleTransport flag never decides acceptance |
| Storage.Listed | server/storage.ts:50-52 | a map filled with keys 1..n lists as its values in key order |
| Storage.OfItinerary | server/storage.ts:66 | the filter keeps exactly the segments of the given itinerary |
| Storage.OfItineraryAppend | server/storage.ts:66 | filtering distributes over concatenation |
| Storage.OfItineraryKeepsIdOrder | server/storage.ts:65-66 | filtering keeps the relative order of what it keeps |
| Storage.OfItineraryAllMatch | server/storage.ts:66 | filtering a list of one itinerary's segments changes nothing |
| Storage.OfItineraryNoneMatch | server/storage.ts:66 | filtering a list with none of the itinerary's segments gives nothing |
| Storage.Insert | server/storage.ts:67 | one insertion step adds exactly the new element, as a multiset |
| Storage.InsertKeepsOrder | server/storage.ts:67 | insertion keeps a list sorted by segmentOrder |
| Storage.InsertKeepsTies | server/storage.ts:67 | insertion keeps a list sorted by segmentOrder and then by id |
| Storage.SortByOrder | server/storage.ts:67 | the sort returns a permutation of its input in ascending segmentOrder |
| Storage.SortByOrderIsStable | server/storage.ts:65-67 | segments with equal segmentOrder stay in insertion (id) order |
| Storage.SortByOrderOfOrdered | server/storage.ts:67 | sorting an already ordered list returns it unchanged |
| Storage.ListedSegments | server/storage.ts:65 | listing the segment map yields every stored segment and nothing else, in ascending id order |
| Storage.SegmentsOf | server/storage.ts:64-68 | getSegmentsByItineraryId returns exactly the stored segments of that itinerary, ordered by segmentOrder with ties in insertion order |
| Storage.SegmentsOfFreshItinerary | server/storage.ts:54-68 | after n segments of a new itinerary are created with orders 1..n, its query returns exactly those n in creation order |
| Storage.ExtendsStep | server/storage.ts:54-62 | creating the next segment extends the record of segments added so far by one |
| Storage.MemStorage.constructor | server/storage.ts:28-33 | the store starts with empty maps and both counters at 1 |
| Storage.MemStorage.CreateItinerary | server/storage.ts:35-44 | the itinerary gets the next id and the given timestamp, is stored under that id and can be read back; when every segment refers to a stored itinerary, that stays so and no segment refers to the new one |
| Storage.MemStorage.GetItinerary | server/storage.ts:46-48 | an id is found exactly when it was handed out, and the result carries that id |
| Storage.MemStorage.GetAllItineraries | server/storage.ts:50-52 | all stored itineraries, in creation order, and nothing else |
| Storage.MemStorage.CreateSegment | server/storage.ts:54-62 | the segment gets the next id and is stored under it; everything else is unchanged, and referential integrity holds if its itinerary exists |
| Storage.MemStorage.GetSegmentsByItineraryId | server/storage.ts:64-68 | the stored segments of the itinerary and only those, ordered by segmentOrder and then by creation |
| Storage.MemStorage.UpdateItineraryEmissions | server/storage.ts:70-76 | only the total of an existing itinerary changes, and an unknown id changes nothing |
| Routes.StoredSegmentsFacts | server/routes.ts:26-48 | the stored segments belong to the new itinerary, are numbered 1..n, carry their own mode's emissions, and add up to the handler's total |
| Routes.PostItinerary | server/routes.ts:10-64 | an invalid body is answered 400 and changes nothing; a valid one creates the itinerary with the total of its segments' emissions and adds exactly its segments |
| Routes.CreateFromRequest | server/routes.ts:14-58 | the itinerary is stored under the next id with the total of its segments' emissions, its segments are added under consecutive ids, and a later GET returns exactly those segments in input order |
| Routes.PostedSegmentsListed | server/routes.ts:38-48 | the segments a POST adds under a fresh itinerary id are exactly what its GET returns |
| Routes.StoreSegments | server/routes.ts:24-49 | the loop stores each segment with order i+1 under consecutive ids and returns the sum of their emissions |
| Routes.ListItineraries | server/routes.ts:67-76 | every stored itinerary, in creation order |
| Routes.GetItinerary | server/routes.ts:79-96 | 404 exactly for unknown ids, otherwise the itinerary with its ordered segments |
| TravelDetails.ApplyEdit | client/src/components/travel-form/travel-details-step.tsx:56-84 | an edit only keeps existing segments or adds blank ones; an add keeps the list as a prefix and adds at most one; a remove drops at most one segment; a mode switch leaves a non-empty prefix of the list |
| TravelDetails.EditKeepsCountInRange | client/src/components/travel-form/travel-details-step.tsx:56-84 | one add, remove or mode switch keeps the list at 1 to 5 segments |
| TravelDetails.EditsKeepCountInRange | client/src/components/travel-form/travel-details-step.tsx:56-84 | any run of adds, removes and mode switches from 1..5 segments stays within 1..5 |
| TravelDetails.RemoveUndoesAdd | client/src/components/travel-form/travel-details-step.tsx:68-84 | deleting the segment just added restores the list |
| TravelDetails.ChooseIsIdempotent | client/src/components/travel-form/travel-details-step.tsx:56-66 | answering the same way twice changes nothing the second time |
| TravelDetails.SegmentFields.constructor | client/src/components/travel-form/travel-details-step.tsx:44-52 | the step starts from the data it is given |
| TravelDetails.SegmentFields.AddSegment | client/src/components/travel-form/travel-details-step.tsx:68-78 | appends one blank car segment when there are fewer than 5, and otherwise changes nothing |
| TravelDetails.SegmentFields.RemoveSegment | client/src/components/travel-form/travel-details-step.tsx:80-84 | removes exactly the given index when there is more than one segment, and otherwise changes nothing |
| TravelDetails.SegmentFields.RemoveAt | client/src/components/travel-form/travel-details-step.tsx:63 | the field array's remove drops exactly one index |
| TravelDetails.SegmentFields.HandleMultipleTransportChange | client/src/components/travel-form/travel-details-step.tsx:56-66 | sets the flag to value == "true"; switching to single with several segments leaves exactly the first; otherwise the list is unchanged |
| TravelDetails.SegmentFields.SetTransportMode | client/src/components/travel-form/travel-details-step.tsx:174 | only the chosen segment's mode changes |
| TravelDetails.SegmentFields.SetFrom | client/src/components/travel-form/travel-details-step.tsx:205-206 | only the chosen segment's origin address and coordinates change |
| TravelDetails.SegmentFields.SetTo | client/src/components/travel-form/travel-details-step.tsx:234-235 | only the chosen segment's destination address and coordinates change |
| TravelDetails.SegmentFields.Submit | client/src/components/travel-form/travel-details-step.tsx:22-25 | the data is handed on exactly when it passes the step's schema |
| TravelDetails.BlankSegmentIsIncomplete | client/src/components/travel-form/travel-details-step.tsx:14-20 | a freshly added segment does not pass the schema until it is filled in |
| TravelDetails.ValidDetailsMakeValidRequest | client/src/components/travel-form/travel-details-step.tsx:14-25 | details that pass the step's schema, with non-empty identity fields, form a body the server accepts |
| TravelFormPage.BackStep | client/src/pages/travel-form.tsx:51-53 | Back never goes below step 1, and goes one step down from any later step |
| TravelFormPage.BackReachesFirstStep | client/src/pages/travel-form.tsx:51-53 | enough presses of Back reach step 1 from any step |
| TravelFormPage.TravelForm.constructor | client/src/pages/travel-form.tsx:24-39 | the wizard starts at step 1 with empty fields, flag false and one blank car segment |
| TravelFormPage.TravelForm.HandleBasicInfoNext | client/src/pages/travel-form.tsx:41-44 | replaces only the three identity fields and moves to step 2 |
| TravelFormPage.TravelForm.HandleTravelDetailsNext | client/src/pages/travel-form.tsx:46-49 | replaces only the flag and the segments and moves to step 3 |
| TravelFormPage.TravelForm.HandleBack | client/src/pages/travel-form.tsx:51-53 | moves to max(1, step - 1) and leaves the data alone |
| TravelFormPage.TravelForm.HandleEdit | client/src/pages/travel-form.tsx:55-57 | jumps to the given step without clamping and leaves the data alone |
| TravelFormPage.TravelForm.HandleSuccess | client/src/pages/travel-form.tsx:59-77 | restores the initial data and step 1 |
| TravelFormPage.InitialFormIsIncomplete | client/src/pages/travel-form.tsx:25-39 | the initial data would be rejected by the server |
| TravelFormPage.CompletedFormIsAccepted | client/src/pages/travel-form.tsx:41-49 | after both steps hand over valid data, the form data passes validation and parses back to itself |
| Review.PreviewSegments | client/src/components/travel-form/review-step.tsx:58-69 | one preview entry per segment, in order, with the segment, its distance and its mode's emissions |
| Review.PreviewAgreesWithServer | client/src/components/travel-form/review-step.tsx:58-72 | the preview sees the legs the server computes, and its entries' emissions add up to the server's total |
| Review.PreviewTotal | client/src/components/travel-form/review-step.tsx:71-72 | the sum of the five per-mode values equals the total emissions of the segments, and is non-negative for non-negative distances |
| Review.ValuesSum | client/src/components/travel-form/review-step.tsx:72 | summing the breakdown's values gives a non-negative total no smaller than any one mode's value, when those values are non-negative |
| Review.ValuesSumIsTotal | client/src/components/travel-form/review-step.tsx:71-72 | adding up the five values of the per-mode breakdown gives the total emissions of the legs |
| Review.NonNegativeLegs | client/src/lib/carbon-calculator.ts:22-31 | non-negative distances give a non-negative total |
| Review.PreviewMatchesStoredTotal | client/src/components/travel-form/review-step.tsx:71-97 | for form data the server accepts, the preview total equals the total the POST handler stores |
| Review.Truncated | client/src/components/travel-form/review-step.tsx:166 | a shown location has at most 33 characters; one of up to 30 is shown unchanged; a longer one as its first 30 followed by "..." |
| Review.TruncatedIsIdempotent | client/src/components/travel-form/review-step.tsx:166 | truncating a shown location again changes nothing |
| Review.TruncatedCollapsesLongTails | client/src/components/travel-form/review-step.tsx:166 | two long locations are shown alike exactly when their first 30 characters agree |
| Review.BaseLocationLabel | client/src/components/travel-form/review-step.tsx:129 | the table's label for a known key, and the key itself otherwise |
| Review.LabelsAreNonEmpty | client/src/components/travel-form/review-step.tsx:40-51 | a non-empty key is never shown as an empty label |
| Review.KnownLabelsDistinct | client/src/components/travel-form/review-step.tsx:40-51 | the ten known locations have ten different labels |
| Review.UpperCase | client/src/components/travel-form/review-step.tsx:162 | lower-case ASCII letters become their upper-case forms, and every other character is unchanged |
| Review.Capitalized | client/src/components/travel-form/review-step.tsx:162 | same length, the first character upper-cased, the rest unchanged |
| Review.CapitalizedIsIdempotent | client/src/components/travel-form/review-step.tsx:162 | capitalising twice is capitalising once |
| Review.ModeLabels | client/src/components/travel-form/review-step.tsx:162 | the modes show as "Car", "Train", "Air", "Bus", "Bike", and no two modes share a label |

## Left out

- `calculateDistance` (haversine with radius 6371 km) is a parameter of `Carbon.Geodesy`, not a definition. Trigonometry and square roots over floating point have no exact counterpart over `real`.
- The parsing of `"lat,lng"` strings (`split(',').map(Number)`) is the `parse` parameter of `Carbon.Geodesy`. NaN for malformed strings is not modelled.
- JavaScript floating-point rounding: all arithmetic is over exact reals. Sums that are equal here may differ in their last bits in the program, for example the preview total and the server total.
- The display rounding `Math.round` of distance and emissions in the review step is not modelled.
- `createdAt: new Date()` is the caller-supplied `now` timestamp.
- `parseInt` of the GET path parameter: `Routes.GetItinerary` takes the number it produces. A NaN id finds nothing, like any other unknown id.
- `Storage.MemStorage.UpdateItineraryEmissions` sets the field on the stored object in place. That object is the same one the POST handler holds. The model works on itinerary values, so this aliasing is not modelled. The response overrides `totalEmissions` either way, so what is returned is the same.
- JSON bodies whose fields have the wrong types (a number where a string is expected, a missing field, extra fields that zod would strip) are not modelled. The raw body already has the right field types. Error messages of the 400 and 500 responses are not modelled.
- Concurrency of the asynchronous handlers is not modelled: each request runs to completion before the next.
- `TravelDetails.SegmentFields.RemoveSegment` requires an index of a shown segment. The delete buttons are rendered one per segment (travel-details-step.tsx:147-162), so no other index reaches it. react-hook-form's behaviour for other indices is not modelled.
- The internals of react-hook-form (`useForm`, `useFieldArray`, field ids, re-rendering) are not modelled. The field array is a sequence that the step's handlers reassign.
- String lengths count Unicode scalar values. JavaScript's `length` and `substring` count UTF-16 code units, so `Review.Truncated` can differ from the program for text outside the Basic Multilingual Plane. `Review.UpperCase` covers only ASCII, which is all the mode names use.
- `baseLocationLabels[key]` on keys inherited from `Object.prototype` (such as "constructor") yields a function in JavaScript. `Review.BaseLocationLabel` treats every key outside the table as unknown.
- The review step's submission (the network request, the toast, query invalidation) is not modelled beyond `TravelFormPage.TravelForm.HandleSuccess`, which it calls on success. The date formatting and the transport icons are rendering only.
- The travel-details step keeps its own copy of the segment schema (travel-details-step.tsx:14-25). It is the same as the server's, and `TravelDetails.ValidDetails` is defined through `Schema.WellFormedSegment`.
