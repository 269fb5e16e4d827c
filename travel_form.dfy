/**
 * The three-step wizard page (pages/travel-form.tsx): the current step and
 * the form data gathered so far, changed by the handlers each step calls.
 */
module TravelFormPage {
  import opened Wrappers
  import opened Schema
  import opened TravelDetails

  /** FormData: the identity fields, the flag and the segments. */
  type FormData = Request

  /** The data the page starts from and returns to after a successful submit. */
  const InitialFormData := Request("", "", "", false, [BlankSegment])

  /** What the first step hands over. */
  datatype BasicInfo = BasicInfo(travelerName: string, baseLocation: string, travelDate: string)

  /** `Math.max(1, step - 1)` */
  function BackStep(step: int): (r: int)
    ensures r >= 1
    ensures r <= step || step < 1
    ensures step > 1 ==> r == step - 1
    ensures step <= 1 ==> r == 1
  {
    if step - 1 > 1 then step - 1 else 1
  }

  /** The step after pressing Back `presses` times. */
  function BackSteps(step: int, presses: nat): int
    decreases presses
  {
    if presses == 0 then step else BackSteps(BackStep(step), presses - 1)
  }

  /** Pressing Back at least once, and at least step - 1 times, lands on step 1 whatever the start. */
  lemma {:induction false} BackReachesFirstStep(step: int, presses: nat)
    requires presses >= 1 && presses >= step - 1
    ensures BackSteps(step, presses) == 1
    decreases presses
  {
    if presses > 1 {
      BackReachesFirstStep(BackStep(step), presses - 1);
    }
  }

  class TravelForm {
    var currentStep: int
    var formData: FormData

    constructor ()
      ensures currentStep == 1 && formData == InitialFormData
    {
      currentStep := 1;
      formData := InitialFormData;
    }

    /** handleBasicInfoNext: the three identity fields are replaced, then step 2. */
    method HandleBasicInfoNext(data: BasicInfo)
      modifies this
      ensures formData == old(formData).(travelerName := data.travelerName, baseLocation := data.baseLocation,
                                         travelDate := data.travelDate)
      ensures formData.multipleTransport == old(formData.multipleTransport)
      ensures formData.segments == old(formData.segments)
      ensures currentStep == 2
    {
      formData := formData.(travelerName := data.travelerName, baseLocation := data.baseLocation,
                            travelDate := data.travelDate);
      currentStep := 2;
    }

    /** handleTravelDetailsNext: the flag and the segments are replaced, then step 3. */
    method HandleTravelDetailsNext(data: TravelDetailsData)
      modifies this
      ensures formData == old(formData).(multipleTransport := data.multipleTransport, segments := data.segments)
      ensures formData.travelerName == old(formData.travelerName)
      ensures formData.baseLocation == old(formData.baseLocation)
      ensures formData.travelDate == old(formData.travelDate)
      ensures currentStep == 3
    {
      formData := formData.(multipleTransport := data.multipleTransport, segments := data.segments);
      currentStep := 3;
    }

    /** handleBack: one step back, never below step 1. */
    method HandleBack()
      modifies this
      ensures currentStep == BackStep(old(currentStep))
      ensures formData == old(formData)
    {
      currentStep := BackStep(currentStep);
    }

    /** handleEdit: jumps to the given step as is, without clamping it. */
    method HandleEdit(step: int)
      modifies this
      ensures currentStep == step
      ensures formData == old(formData)
    {
      currentStep := step;
    }

    /** handleSuccess: back to the initial data and step 1. */
    method HandleSuccess()
      modifies this
      ensures currentStep == 1 && formData == InitialFormData
    {
      formData := InitialFormData;
      currentStep := 1;
    }
  }

  /** The starting data is not yet a request the server would accept. */
  lemma InitialFormIsIncomplete()
    ensures !ValidRawRequest(Encode(InitialFormData))
  {
    EncodedValidIffWellFormed(InitialFormData);
  }

  /**
   * Filling in the first step with non-empty fields and passing the second
   * step's schema gives form data the server accepts, whatever it held before.
   */
  lemma CompletedFormIsAccepted(f: FormData, info: BasicInfo, details: TravelDetailsData)
    requires info.travelerName != "" && info.baseLocation != "" && info.travelDate != ""
    requires ValidDetails(details)
    ensures
      var filled := f.(travelerName := info.travelerName, baseLocation := info.baseLocation,
                       travelDate := info.travelDate)
                     .(multipleTransport := details.multipleTransport, segments := details.segments);
      ValidRawRequest(Encode(filled)) && Parse(Encode(filled)) == Some(filled)
  {
    var filled := f.(travelerName := info.travelerName, baseLocation := info.baseLocation,
                     travelDate := info.travelDate)
                   .(multipleTransport := details.multipleTransport, segments := details.segments);
    EncodedValidIffWellFormed(filled);
    ParseEncode(filled);
  }
}
