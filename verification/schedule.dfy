/** The ten-day schedule builder: for each of ten consecutive days from
    today it creates a booking draft and lists that draft's slots. */
module Schedule {
  import opened Wrappers
  import opened Zenoti

  /** How many consecutive days the schedule covers. */
  const NUMBER_OF_DAYS: nat := 10

  /** One day of the schedule. */
  datatype ScheduleEntry = ScheduleEntry(
    center: Id,
    date: Day,
    guest: Id,
    service: Id,
    booking: Id,
    slots: seq<Slot>)

  datatype ScheduleError =
    | MissingDraftId(date: Day)   // `booking_service["id"]` on a body without an id

  /** The draft posted for one day: the center, the date, catalog employees not
      required, and one guest booking the one service. No therapist is sent,
      whichever was chosen. */
  function DraftPayload(center: Id, date: Day, guest: Id, service: Id): BookingPayload {
    BookingPayload(center, date, "false", [BookingGuest(guest, [service])])
  }

  /** The request creating the draft for `date`. */
  function DraftRequest(center: Id, date: Day, guest: Id, service: Id): Request {
    CreateBooking(DraftPayload(center, date, guest, service))
  }

  /** `e` is the schedule entry for `date`: the fixed ids, the id of the draft
      the API created for that date, and exactly that draft's slots (none when
      the `slots` field is absent). */
  ghost predicate EntryFor(e: ScheduleEntry, center: Id, date: Day, guest: Id, service: Id, up: Upstream) {
    && e.center == center
    && e.date == date
    && e.guest == guest
    && e.service == service
    && up.createBooking(DraftRequest(center, date, guest, service)) == Some(Draft(e.booking))
    && e.slots == up.slots(ListSlots(e.booking)).GetOr([])
  }

  /** The API gave an id to the draft for each of the first `n` days. */
  ghost predicate DraftsHaveIds(center: Id, today: Day, guest: Id, service: Id, up: Upstream, n: nat) {
    forall date :: today <= date < today + n ==> up.createBooking(DraftRequest(center, date, guest, service)).Some?
  }

  /** `get_service_schedule`. `today` is the date read once before the loop.
      The schedule is built when every day's draft has an id; otherwise the
      handler raises at the first day whose draft has none, after posting it. */
  method GetServiceSchedule(center: Id, guest: Guest, service: Id, therapist: Option<Id>, today: Day, up: Upstream)
    returns (result: Result<seq<ScheduleEntry>, ScheduleError>, sent: seq<Request>)
    ensures result.Success? <==> DraftsHaveIds(center, today, guest.id, service, up, NUMBER_OF_DAYS)
    ensures result.Success? ==>
      && |result.value| == NUMBER_OF_DAYS
      && |sent| == 2 * NUMBER_OF_DAYS
      && (forall i, j :: 0 <= i < j < |result.value| ==> result.value[i].date < result.value[j].date)
      && (forall i :: 0 <= i < |result.value| ==>
            && EntryFor(result.value[i], center, today + i, guest.id, service, up)
            && sent[2 * i] == DraftRequest(center, today + i, guest.id, service)
            && sent[2 * i + 1] == ListSlots(result.value[i].booking))
    ensures result.Failure? ==>
      exists d :: 0 <= d < NUMBER_OF_DAYS
        && DraftsHaveIds(center, today, guest.id, service, up, d)
        && up.createBooking(DraftRequest(center, today + d, guest.id, service)).None?
        && result.error == MissingDraftId(today + d)
        && |sent| == 2 * d + 1
        && sent[2 * d] == DraftRequest(center, today + d, guest.id, service)
        && (forall k :: 0 <= k < d ==>
              && sent[2 * k] == DraftRequest(center, today + k, guest.id, service)
              && up.createBooking(sent[2 * k]).Some?
              && sent[2 * k + 1] == ListSlots(up.createBooking(sent[2 * k]).value.id))
  {
    var schedule: seq<ScheduleEntry> := [];
    sent := [];
    var i := 0;
    while i < NUMBER_OF_DAYS
      invariant 0 <= i <= NUMBER_OF_DAYS
      invariant |schedule| == i && |sent| == 2 * i
      invariant DraftsHaveIds(center, today, guest.id, service, up, i)
      invariant forall k :: 0 <= k < i ==>
        && EntryFor(schedule[k], center, today + k, guest.id, service, up)
        && sent[2 * k] == DraftRequest(center, today + k, guest.id, service)
        && sent[2 * k + 1] == ListSlots(schedule[k].booking)
    {
      var date := today + i;
      var create := DraftRequest(center, date, guest.id, service);
      sent := sent + [create];
      var draft := up.createBooking(create);
      if draft.None? {
        result := Failure(MissingDraftId(date));
        return;
      }
      var slotsRequest := ListSlots(draft.value.id);
      sent := sent + [slotsRequest];
      schedule := schedule + [ScheduleEntry(center, date, guest.id, service, draft.value.id, up.slots(slotsRequest).GetOr([]))];
      i := i + 1;
    }
    result := Success(schedule);
  }
}
