/** The booking wizard: the time slots, the price shown and stored, the
    checks and payload of the booking insert, and the three-step form. */
module BookingForm {

  import opened Database
  import JsText

  /** The time buttons of step 1. */
  const TimeSlots: seq<string> :=
    ["09:00", "10:00", "11:00", "12:00", "13:00", "14:00", "15:00", "16:00", "17:00", "18:00"]

  /** `const [hours, minutes] = time.split(':').map(Number)`: `None` when a
      part is missing or is not a number. */
  function ParseTime(time: string): (r: Option<(nat, nat)>)
  {
    var parts := JsText.Split(time, ':');
    if |parts| < 2 then None
    else
      var hours, minutes := JsText.Number(parts[0]), JsText.Number(parts[1]);
      if hours.None? || minutes.None? then None else Some((hours.value, minutes.value))
  }

  /** A time written "hh:mm" parses to its hour and minute. */
  lemma ParseClockTime(h1: char, h2: char, m1: char, m2: char)
    requires JsText.IsDigit(h1) && JsText.IsDigit(h2) && JsText.IsDigit(m1) && JsText.IsDigit(m2)
    ensures ParseTime([h1, h2, ':', m1, m2])
      == Some((10 * JsText.DigitValue(h1) + JsText.DigitValue(h2), 10 * JsText.DigitValue(m1) + JsText.DigitValue(m2)))
  {
    SplitClock(h1, h2, m1, m2);
    TwoDigits(h1, h2);
    TwoDigits(m1, m2);
  }

  /** "hh:mm" splits at the colon into "hh" and "mm". */
  lemma SplitClock(h1: char, h2: char, m1: char, m2: char)
    requires h1 != ':' && h2 != ':' && m1 != ':' && m2 != ':'
    ensures JsText.Split([h1, h2, ':', m1, m2], ':') == [[h1, h2], [m1, m2]]
  {
    var s := [h1, h2, ':', m1, m2];
    assert s[1..] == [h2, ':', m1, m2];
    assert s[1..][1..] == [':', m1, m2];
    assert s[1..][1..][1..] == [m1, m2];
    assert [m1, m2][1..] == [m2];
    assert [m2][1..] == [];
    assert JsText.Split([], ':') == [""];
    assert [m2] + "" == [m2];
    assert JsText.Split([m2], ':') == [[m2]];
    assert [m1] + [m2] == [m1, m2];
    assert JsText.Split([m1, m2], ':') == [[m1, m2]];
    assert JsText.Split([':', m1, m2], ':') == ["", [m1, m2]];
    assert [h2] + "" == [h2];
    assert JsText.Split([h2, ':', m1, m2], ':') == [[h2], [m1, m2]];
    assert [h1] + [h2] == [h1, h2];
  }

  /** Two decimal digits convert to their two-digit value. */
  lemma TwoDigits(d1: char, d2: char)
    requires JsText.IsDigit(d1) && JsText.IsDigit(d2)
    ensures JsText.Number([d1, d2]) == Some(10 * JsText.DigitValue(d1) + JsText.DigitValue(d2))
  {
    assert [d1, d2][..1] == [d1];
    assert [d1][..0] == [];
    assert JsText.DigitsValue([d1]) == JsText.DigitValue(d1);
  }

  /** Every time slot parses to its hour, 9 to 18 in order, on the hour. */
  lemma TimeSlotsParse()
    ensures forall k :: 0 <= k < |TimeSlots| ==> ParseTime(TimeSlots[k]) == Some((9 + k, 0))
  {
    forall k | 0 <= k < |TimeSlots| ensures ParseTime(TimeSlots[k]) == Some((9 + k, 0)) {
      var t := TimeSlots[k];
      assert |t| == 5 && t[2] == ':' && t[3] == '0' && t[4] == '0';
      assert t == [t[0], t[1], ':', '0', '0'];
      ParseClockTime(t[0], t[1], '0', '0');
    }
  }

  /** A provider as the wizard loads it, with its services. */
  datatype ProviderDetails = ProviderDetails(profile: ProviderProfile, services: seq<ProviderService>)

  /** `provider?.services?.find(s => s.id === serviceId)`. */
  function SelectedService(provider: Option<ProviderDetails>, serviceId: Option<Id>): (r: Option<ProviderService>)
    ensures r.Some? ==> provider.Some? && r.value in provider.value.services && Some(r.value.id) == serviceId
    ensures r.None? && provider.Some? ==>
      forall k :: 0 <= k < |provider.value.services| ==> Some(provider.value.services[k].id) != serviceId
  {
    if provider.None? then None else FindService(provider.value.services, serviceId)
  }

  function FindService(services: seq<ProviderService>, serviceId: Option<Id>): (r: Option<ProviderService>)
    ensures r.Some? ==> r.value in services && Some(r.value.id) == serviceId
    ensures r.None? ==> forall k :: 0 <= k < |services| ==> Some(services[k].id) != serviceId
  {
    if services == [] then None
    else if Some(services[0].id) == serviceId then Some(services[0])
    else FindService(services[1..], serviceId)
  }

  /** `selectedService?.price || provider?.hourly_rate`. */
  function Price(provider: Option<ProviderDetails>, serviceId: Option<Id>): (price: Option<int>)
  {
    var selected := SelectedService(provider, serviceId);
    if selected.Some? && Truthy(selected.value.price) then selected.value.price
    else if provider.Some? then provider.value.profile.hourlyRate
    else None
  }

  /** `price || null`, the stored total. */
  function TotalPrice(price: Option<int>): (total: Option<int>)
  {
    if Truthy(price) then price else None
  }

  /** The stored total is the selected service's price when it is set and not
      zero, otherwise the provider's hourly rate when that is set and not zero,
      otherwise null; it is never zero. */
  lemma TotalPriceFallback(provider: Option<ProviderDetails>, serviceId: Option<Id>)
    ensures var selected := SelectedService(provider, serviceId);
      TotalPrice(Price(provider, serviceId)) ==
        if selected.Some? && Truthy(selected.value.price) then selected.value.price
        else if provider.Some? && Truthy(provider.value.profile.hourlyRate) then provider.value.profile.hourlyRate
        else None
    ensures TotalPrice(Price(provider, serviceId)) != Some(0)
  {
  }

  /** Minutes since an abstract epoch: the chosen day at the given local time. */
  function ScheduledAt(day: int, hours: nat, minutes: nat): (t: int)
  {
    day * 1440 + hours * 60 + minutes
  }

  /** What the booking insert sends; the table gives a new booking the status
      `pending`. */
  datatype BookingInsert = BookingInsert(
    customerId: Id,
    providerId: Id,
    serviceId: Option<Id>,
    scheduledAt: int,
    address: Option<string>,
    description: Option<string>,
    totalPrice: Option<int>)

  /** The form's fields when the booking is confirmed. */
  datatype BookingRequest = BookingRequest(
    selectedDate: Option<int>,
    selectedTime: Option<string>,
    address: string,
    description: string)

  const MissingFields := "Missing required fields"
  const InvalidTime := "Invalid time value"

  predicate HasRequiredFields(request: BookingRequest, user: Option<Id>)
  {
    request.selectedDate.Some? && request.selectedTime.Some? && request.selectedTime.value != ""
    && user.Some?
  }

  /** The booking mutation: fails with "Missing required fields" when the
      date, the time or the user is missing; with an invalid time value
      when the time does not parse; otherwise the insert payload. */
  function CreateBooking(request: BookingRequest, user: Option<Id>, providerId: Id,
                         serviceId: Option<Id>, price: Option<int>): (r: Result<BookingInsert>)
    ensures r == Err(MissingFields) <==> !HasRequiredFields(request, user)
    ensures r.Ok? <==> HasRequiredFields(request, user) && ParseTime(request.selectedTime.value).Some?
    ensures r.Ok? ==>
      && r.value.customerId == user.value
      && r.value.providerId == providerId
      && r.value.serviceId == (if serviceId == Some("") then None else serviceId)
      && r.value.scheduledAt == ScheduledAt(request.selectedDate.value,
                                            ParseTime(request.selectedTime.value).value.0,
                                            ParseTime(request.selectedTime.value).value.1)
      && r.value.address == OrNull(request.address)
      && r.value.description == OrNull(request.description)
      && r.value.totalPrice == TotalPrice(price)
  {
    if !HasRequiredFields(request, user) then Err(MissingFields)
    else
      var time := ParseTime(request.selectedTime.value);
      if time.None? then Err(InvalidTime)
      else
        Ok(BookingInsert(
          user.value,
          providerId,
          if serviceId.Some? && serviceId.value != "" then serviceId else None,
          ScheduledAt(request.selectedDate.value, time.value.0, time.value.1),
          OrNull(request.address),
          OrNull(request.description),
          TotalPrice(price)))
  }

  /** The wizard's state: the step and the fields set in steps 1 and 2. */
  class Wizard {
    var step: int
    var selectedDate: Option<int>
    var selectedTime: Option<string>
    var address: string
    var description: string

    /** The step stays within 1..3, a chosen time is one of the slots, and
        the form is past step 1 only with a date and a time. */
    ghost predicate Valid()
      reads this
    {
      && 1 <= step <= 3
      && (selectedTime.Some? ==> selectedTime.value in TimeSlots)
      && (step >= 2 ==> selectedDate.Some? && selectedTime.Some?)
    }

    function Request(): (r: BookingRequest)
      reads this
    {
      BookingRequest(selectedDate, selectedTime, address, description)
    }

    constructor ()
      ensures Valid() && step == 1
      ensures selectedDate.None? && selectedTime.None? && address == "" && description == ""
    {
      step := 1;
      selectedDate, selectedTime := None, None;
      address, description := "", "";
    }

    /** The calendar of step 1 (choosing the selected day again clears it). */
    method SelectDate(day: Option<int>)
      requires Valid() && step == 1
      modifies this
      ensures Valid() && selectedDate == day
      ensures step == old(step) && selectedTime == old(selectedTime)
      ensures address == old(address) && description == old(description)
    {
      selectedDate := day;
    }

    /** A time button of step 1. */
    method SelectTime(slot: string)
      requires Valid() && step == 1 && slot in TimeSlots
      modifies this
      ensures Valid() && selectedTime == Some(slot)
      ensures step == old(step) && selectedDate == old(selectedDate)
      ensures address == old(address) && description == old(description)
    {
      selectedTime := Some(slot);
    }

    /** The address and description inputs of step 2. */
    method EditDetails(newAddress: string, newDescription: string)
      requires Valid() && step == 2
      modifies this
      ensures Valid() && address == newAddress && description == newDescription
      ensures step == old(step) && selectedDate == old(selectedDate) && selectedTime == old(selectedTime)
    {
      address, description := newAddress, newDescription;
    }

    /** The back arrow: one step back, or leave the page from step 1. */
    method Back() returns (leave: bool)
      requires Valid()
      modifies this
      ensures Valid()
      ensures leave <==> old(step) == 1
      ensures step == if old(step) > 1 then old(step) - 1 else old(step)
      ensures Request() == old(Request())
    {
      if step > 1 {
        step := step - 1;
        leave := false;
      } else {
        leave := true;
      }
    }

    /** "Continue" on step 1, enabled only with both a date and a time. */
    method Continue()
      requires Valid() && step == 1
      modifies this
      ensures Valid()
      ensures step == if selectedDate.Some? && selectedTime.Some? then 2 else 1
      ensures Request() == old(Request())
    {
      if selectedDate.Some? && selectedTime.Some? {
        step := 2;
      }
    }

    /** "Review Booking" on step 2. */
    method ToReview()
      requires Valid() && step == 2
      modifies this
      ensures Valid() && step == 3
      ensures Request() == old(Request())
    {
      step := 3;
    }

    /** "Confirm Booking" on step 3: with a signed-in user the request always
        passes the checks, and the payload carries the slot's hour. */
    method Confirm(user: Option<Id>, providerId: Id, serviceId: Option<Id>, price: Option<int>)
      returns (r: Result<BookingInsert>)
      requires Valid() && step == 3
      ensures r == CreateBooking(Request(), user, providerId, serviceId, price)
      ensures r.Ok? <==> user.Some?
      ensures r.Ok? ==> exists k :: (0 <= k < |TimeSlots| && selectedTime == Some(TimeSlots[k])
        && r.value.scheduledAt == ScheduledAt(selectedDate.value, 9 + k, 0))
    {
      TimeSlotsParse();
      r := CreateBooking(Request(), user, providerId, serviceId, price);
    }
  }
}
