/** The records exchanged with the booking API and the API itself, seen as
    pure values: each upstream endpoint is a total function from the request
    that was sent to the decoded JSON it answered with. */
module Zenoti {
  import opened Wrappers

  type Id = string

  /** A calendar date as a day ordinal: `start + i` is the date `i` days later. */
  type Day = int

  /** A category as listed upstream; `fields` holds every other JSON key, untouched. */
  datatype Category = Category(id: Id, name: string, fields: map<string, string>)

  /** A category as shown for browsing: the upstream record plus the `active` flag. */
  datatype ActiveCategory = ActiveCategory(category: Category, active: bool)

  datatype Service = Service(id: Id, name: string, fields: map<string, string>)

  datatype Therapist = Therapist(id: Id, name: string, fields: map<string, string>)

  datatype Guest = Guest(id: Id, fields: map<string, string>)

  datatype Slot = Slot(time: string)

  /** The body `POST /bookings` answers with; only its `id` is read. */
  datatype Draft = Draft(id: Id)

  /** One guest line of a booking draft: the guest and the ids of the items booked for them. */
  datatype BookingGuest = BookingGuest(id: Id, items: seq<Id>)

  /** The JSON body posted to create a booking draft. */
  datatype BookingPayload = BookingPayload(
    center: Id,
    date: Day,
    onlyCatalogEmployees: string,
    guests: seq<BookingGuest>)

  /** Every request the handler can send, with the parameters that select the answer. */
  datatype Request =
    | ListCategories(center: Id, page: nat, kind: nat, size: nat)
    | FetchCategory(center: Id, category: Id)
    | ListServices(center: Id, page: nat, size: nat, categoryFilter: Option<Id>)
    | FetchService(center: Id, service: Id)
    | ListTherapists(center: Id)
    | CreateBooking(payload: BookingPayload)
    | ListSlots(booking: Id)

  /** The upstream API. A list endpoint answers `None` when its named array field
      (`categories`, `services`, `therapists`, `slots`) is absent; a single-record
      endpoint answers `None` for an empty body; `createBooking` answers `None`
      when the body carries no `id`. */
  datatype Upstream = Upstream(
    categories: Request -> Option<seq<Category>>,
    category: Request -> Option<Category>,
    services: Request -> Option<seq<Service>>,
    service: Request -> Option<Service>,
    therapists: Request -> Option<seq<Therapist>>,
    createBooking: Request -> Option<Draft>,
    slots: Request -> Option<seq<Slot>>)

  /** A value together with the requests sent, in order, to compute it. */
  datatype Traced<+T> = Traced(sent: seq<Request>, value: T)

  /** Python truthiness of an optional id: `None` and `""` are both falsy. */
  predicate Given(id: Option<Id>) {
    id.Some? && id.value != ""
  }
}
