# Booking catalog and schedule reshaping, modelled in Dafny

This project models the data-reshaping logic of `ZenotiHandler`, the class
through which a spa/salon booking front end talks to the Zenoti booking API.
Every upstream HTTP answer is an input. The value `Upstream` (module
`Zenoti`) maps each request the handler sends to the decoded JSON the API
answers with. Each operation that talks to the API returns the requests it
sent, in order, together with its result, on its failure paths as well. That is how "no request is made" becomes part of a contract.

Modules:

- `Wrappers`: `Option` and `Result`.
- `Text`: ASCII upper-casing, standing in for `str.upper()`.
- `Seqs`: the generic list comprehensions behind the handler: the first match,
  and the filter. The filter lemma shows that the kept elements form an
  order-preserving subsequence.
- `Zenoti`: the records (categories, services, therapists, guests, drafts,
  slots, the booking-draft payload), the requests, and the upstream API.
- `Catalog`: `EXCLUDED_CATEGORIES` and `ADDON_CATEGORIES`, the category
  browsing list, the add-on split, the optional-selection guards, services,
  therapists and the in-memory therapist lookup.
- `Schedule`: the ten-day schedule builder and the draft payload.

Conventions used throughout:

- A falsy id (`not x` in Python) is `None` or `Some("")` for an optional id.
  It is `""` for an id typed `str`.
- A list endpoint whose named array field is absent answers `None`. The handler
  then uses `[]`.
- A single-record endpoint with an empty body answers `None`. That is the
  handler's `{}`.
- Dates are day ordinals. `today` is a parameter, read once before the loop.
- Where the Python raises, the model returns a `Failure`:
  - `addons[0]` on no add-on category gives `NoAddonCategory`;
  - `filtered_therapist[0]` on no match gives `TherapistNotFound`;
  - `booking_service["id"]` on a draft without an id gives `MissingDraftId`.

Three behaviours of the code are worth stating plainly, since the model
keeps them:

- One booking draft without an id aborts the whole schedule. There is no
  per-day failure tolerance, so `GetServiceSchedule` fails at the first such
  day.
- A therapist id that matches nothing raises at `filtered_therapist[0]`. It
  does not give an empty result.
- The per-day calls are sequential, with no timeouts, and the model keeps
  their order.

## Model

| member | source | states |
|---|---|---|
| Catalog.AddonIsExcluded | api/handlers/ZenotiHandler.py:13-14 | every add-on category name is also an excluded name, so add-ons never appear in the browsing list |
| Catalog.ExclusionIgnoresCase | api/handlers/ZenotiHandler.py:44 | exclusion and add-on membership compare upper-cased names, so names differing only in letter case are treated alike |
| Catalog.BrowseList | api/handlers/ZenotiHandler.py:41-45 | no browsing entry has an excluded upper-cased name; each entry is active exactly when its id equals the selected id; the list is no longer than the upstream page |
| Catalog.BrowseListIsKeptSubsequence | api/handlers/ZenotiHandler.py:41-45 | the browsing list is the order-preserving subsequence of the upstream categories at strictly ascending positions, with each record unchanged; a position is kept if and only if its category's upper-cased name is not excluded |
| Catalog.BrowseListFromUpstream | api/handlers/ZenotiHandler.py:41-45 | every browsing entry wraps a category of the upstream page |
| Catalog.BrowseListKeepsEveryAllowed | api/handlers/ZenotiHandler.py:41-45 | every upstream category whose upper-cased name is not excluded appears in the browsing list |
| Catalog.AtMostOneActive | api/handlers/ZenotiHandler.py:42 | when upstream ids are distinct, at most one browsing entry is active |
| Catalog.SomeActiveIff | api/handlers/ZenotiHandler.py:41-45 | some entry is active if and only if the selected id is the id of a non-excluded category, so none is active when nothing is selected or the selection matches nothing kept |
| Catalog.ExactlyOneActive | api/handlers/ZenotiHandler.py:41-45 | with distinct ids and a selection naming a kept category, exactly one entry is active, and it is that category, unchanged |
| Catalog.BrowseListExample | api/handlers/ZenotiHandler.py:41-45 | of the categories Hair, ADD-ON and Charges & Fees, only Hair is listed, inactive |
| Catalog.GetCenterCategories | api/handlers/ZenotiHandler.py:35-45 | exactly one request, for page 1 of size 10; an absent `categories` field gives an empty list; every entry comes from the fetched page, is not excluded, and is active exactly when its id is the selected one |
| Catalog.GetCenterCategoriesKeepsEveryAllowed | api/handlers/ZenotiHandler.py:35-45 | every category of the fetched page whose upper-cased name is not excluded is listed |
| Catalog.GetCenterCategoriesInPageOrder | api/handlers/ZenotiHandler.py:35-45 | the listed categories are the fetched page's records at strictly ascending positions, unchanged, and a position is listed if and only if its name is not excluded |
| Catalog.SplitAddons | api/handlers/ZenotiHandler.py:62 | `suggested` holds at most 4 services, and exactly 4 when there are at least 4; `all` holds max(0, n - 4); `suggested + all` is the fetched list, in order |
| Catalog.SplitAddonsRoundTrip | api/handlers/ZenotiHandler.py:62 | any pair a split could produce is what splitting its concatenation gives back |
| Catalog.GetCenterAddons | api/handlers/ZenotiHandler.py:47-62 | fails with `NoAddonCategory` if and only if no category on the page of 20 is an add-on, having sent only the categories request; otherwise it sends that request and then one services request for the center, and `suggested + all` is exactly that service list, with at most 4 suggestions and exactly 4 when the list has at least 4, and `all` holding max(0, n - 4) services |
| Catalog.AddonsOfFirstAddonCategory | api/handlers/ZenotiHandler.py:53-60 | the services request filters by the id of the first add-on category in upstream page order, even when later categories are add-ons too |
| Catalog.ServicesRequest | api/handlers/ZenotiHandler.py:74-81 | the services request asks for page 1 of size 10 and carries a category filter if and only if the category id is truthy |
| Catalog.GetCenterServices | api/handlers/ZenotiHandler.py:73-86 | always one services request for the center, page 1 of size 10, filtered by the category id if and only if that id is truthy; the result is the `services` field of the answer, and an absent field gives an empty list |
| Catalog.GetCenterCategory | api/handlers/ZenotiHandler.py:64-71 | no request and an empty result if and only if either id is falsy; otherwise one request whose answer, or empty, is the result |
| Catalog.GetCenterService | api/handlers/ZenotiHandler.py:88-95 | no request and an empty result if and only if either id is falsy; otherwise one request whose answer, or empty, is the result |
| Catalog.GetCenterTherapists | api/handlers/ZenotiHandler.py:97-105 | no request and no therapists if and only if the center id is falsy; an absent `therapists` field gives an empty list |
| Catalog.GetCenterTherapist | api/handlers/ZenotiHandler.py:107-117 | empty exactly when the list is empty or the id is falsy; fails exactly when nothing matches otherwise; else returns the first listed therapist with that id |
| Catalog.TherapistLookupUnique | api/handlers/ZenotiHandler.py:113-117 | with distinct ids, the lookup returns the one therapist that carries the id |
| Seqs.FirstIndex | api/handlers/ZenotiHandler.py:53-59 | the first position whose element passes the test, with no earlier one passing; none if and only if no element passes |
| Seqs.FirstIndexIsFilterHead | api/handlers/ZenotiHandler.py:53-59 | `[x for x in s if p(x)][0]` exists exactly when the first-match position does, and it is the element at that position |
| Seqs.Filter | api/handlers/ZenotiHandler.py:41-45 | every element of a list comprehension with a condition passes the condition, and the result is no longer than its input |
| Seqs.FilterIsKeptSubsequence | api/handlers/ZenotiHandler.py:41-45 | a list comprehension with a condition keeps exactly the elements passing it, in order, at strictly ascending positions |
| Seqs.FilterKeepsEvery | api/handlers/ZenotiHandler.py:41-45 | every element passing the condition is kept |
| Text.Upper | api/handlers/ZenotiHandler.py:44 | the upper-cased name has the same length; every lower-case ASCII letter becomes its capital, 32 code points below, and every other character stays in place, so no lower-case ASCII letter remains |
| Text.UpperIdempotent | api/handlers/ZenotiHandler.py:44 | upper-casing an already upper-cased name changes nothing |
| Text.UpperIgnoresCase | api/handlers/ZenotiHandler.py:44 | two names of equal length whose characters pairwise are equal or an ASCII lower-case letter and its capital upper-case to the same string |
| Schedule.GetServiceSchedule | api/handlers/ZenotiHandler.py:119-204 | succeeds if and only if every day's draft has an id; then there are exactly 10 entries, with entry i dated today + i (strictly ascending), the same center, guest and service, the id of the draft created for that date, and exactly that draft's slots (none when `slots` is absent); on both paths every request sent is fixed by the center, today, the guest id, the service and the API answers: draft creation and slot listing alternate day by day, and on failure it stops right after posting the first draft that lacks an id; the therapist argument appears nowhere in the contract, so it reaches no request (the TODO at line 193); each draft carries the center, the date, catalog employees not required and one guest booking the one service (`_create_booking_service`, lines 177-198), and slots are listed for the draft's id (`_get_booking_service_slots`, lines 200-204); `create_center_guest` (lines 154-175) lies inside this range but is not used here |

## Left out

- HTTP transport, `DEFAULT_HEADERS`, environment variables, URL building and JSON decoding are not modelled. They are I/O; responses are inputs.
- `get_centers_location`, `get_center_information` and `create_center_guest` (a constant placeholder guest posted upstream) are not modelled. They are outside the reshaping core.
- `main.py` (routes, template filters and date/time humanizing) is not part of this model.
- Upstream records are assumed to carry their `id` and `name` keys, and the guest its `id`. Python's `KeyError` on a category or therapist without them, or on `guest["id"]` (lines 136 and 142), is not modelled.
- The add-on category's `.get("id", None)` default is not modelled, for the same reason.
- A list field present but `null` is not modelled; only a present list and an absent field are. The handler returns a null `services`, `therapists` or `slots` as `None` (lines 86, 105 and 204), and raises `TypeError` when `categories` is null (lines 43 and 55) or when a null services list is sliced (line 62).
- Text.Upper: maps ASCII letters only, so it is weaker than Python's full Unicode `str.upper()`.
- Schedule.GetServiceSchedule: dates are day ordinals. The `%Y-%m-%d` and `isoformat` strings that Python's datetime library produces are not modelled.
- Concurrency, timeouts, retries, per-day failure markers, reservation, invoices and promo codes are not modelled, because the handler has none of them.
