/** Read-only catalog lookups of the handler: category browsing with
    exclusion and the `active` flag, the add-on split, the optional-selection
    guards, services, therapists and the in-memory therapist lookup. */
module Catalog {
  import opened Wrappers
  import opened Text
  import opened Zenoti
  import opened Seqs

  /** Upper-cased category names hidden from browsing. */
  const EXCLUDED_CATEGORIES: seq<string> := ["ADD-ON", "CHARGES & FEES", "CHARGES AND FEES"]

  /** Upper-cased category names whose services are offered as add-ons. */
  const ADDON_CATEGORIES: seq<string> := ["ADD-ON"]

  /** How many add-on services are shown as `suggested`. */
  const SUGGESTED_ADDONS: nat := 4

  datatype CatalogError =
    | NoAddonCategory      // `addons[0]` on an empty list
    | TherapistNotFound    // `filtered_therapist[0]` on an empty list

  predicate Excluded(name: string) {
    Upper(name) in EXCLUDED_CATEGORIES
  }

  predicate IsAddon(name: string) {
    Upper(name) in ADDON_CATEGORIES
  }

  /** Every add-on category is also hidden from the browsing list. */
  lemma AddonIsExcluded(name: string)
    requires IsAddon(name)
    ensures Excluded(name)
  {
  }

  /** Exclusion ignores the case of ASCII letters: names that differ only in
      case are both hidden or both shown. */
  lemma ExclusionIgnoresCase(name: string, other: string)
    requires |name| == |other|
    requires forall i :: 0 <= i < |name| ==> SameUpToCase(name[i], other[i])
    ensures Excluded(name) <==> Excluded(other)
    ensures IsAddon(name) <==> IsAddon(other)
  {
    UpperIgnoresCase(name, other);
  }

  // ---------------------------------------------------------------------------
  // Browsing list of categories
  // ---------------------------------------------------------------------------

  /** A category shown for browsing: its upper-cased name is not excluded. */
  predicate Browsable(c: Category) {
    !Excluded(c.name)
  }

  /** Each kept category paired with a flag telling whether it is the selected one. */
  function Annotate(kept: seq<Category>, selected: Option<Id>): seq<ActiveCategory> {
    seq(|kept|, k requires 0 <= k < |kept| => ActiveCategory(kept[k], selected == Some(kept[k].id)))
  }

  /** The categories kept for browsing, in upstream order, each flagged active
      exactly when its id is the selected one. */
  function BrowseList(cats: seq<Category>, selected: Option<Id>): (r: seq<ActiveCategory>)
    ensures |r| <= |cats|
    ensures forall k :: 0 <= k < |r| ==>
      && !Excluded(r[k].category.name)
      && (r[k].active <==> selected == Some(r[k].category.id))
  {
    Annotate(Filter(cats, Browsable), selected)
  }

  /** The browsing list is the order-preserving subsequence of the upstream
      categories made of exactly the non-excluded ones, each record unchanged:
      `idx` lists, strictly ascending, the upstream positions its entries come
      from, and a position appears in `idx` if and only if its category is not
      excluded. */
  lemma BrowseListIsKeptSubsequence(cats: seq<Category>, selected: Option<Id>) returns (idx: seq<nat>)
    ensures |idx| == |BrowseList(cats, selected)|
    ensures forall k :: 0 <= k < |idx| ==>
      idx[k] < |cats| && BrowseList(cats, selected)[k].category == cats[idx[k]]
    ensures forall k, l :: 0 <= k < l < |idx| ==> idx[k] < idx[l]
    ensures forall j :: 0 <= j < |cats| ==> (j in idx <==> !Excluded(cats[j].name))
  {
    idx := FilterIsKeptSubsequence(cats, Browsable);
  }

  /** Every browsing entry is an upstream category. */
  lemma BrowseListFromUpstream(cats: seq<Category>, selected: Option<Id>)
    ensures forall k :: 0 <= k < |BrowseList(cats, selected)| ==> BrowseList(cats, selected)[k].category in cats
  {
    var idx := BrowseListIsKeptSubsequence(cats, selected);
  }

  /** Every category that is not excluded appears in the browsing list. */
  lemma BrowseListKeepsEveryAllowed(cats: seq<Category>, selected: Option<Id>, c: Category)
    requires c in cats && !Excluded(c.name)
    ensures exists k :: 0 <= k < |BrowseList(cats, selected)| && BrowseList(cats, selected)[k].category == c
  {
    FilterKeepsEvery(cats, Browsable, c);
    var kept := Filter(cats, Browsable);
    var k :| 0 <= k < |kept| && kept[k] == c;
    assert BrowseList(cats, selected)[k].category == c;
  }

  /** When upstream ids are distinct, at most one browsing entry is active. */
  lemma AtMostOneActive(cats: seq<Category>, selected: Option<Id>)
    requires forall i, j :: 0 <= i < j < |cats| ==> cats[i].id != cats[j].id
    ensures forall k, l ::
      (0 <= k < |BrowseList(cats, selected)| && 0 <= l < |BrowseList(cats, selected)|
       && BrowseList(cats, selected)[k].active && BrowseList(cats, selected)[l].active) ==> k == l
  {
    var r := BrowseList(cats, selected);
    var idx := BrowseListIsKeptSubsequence(cats, selected);
  }

  /** Some browsing entry is active if and only if the selected id is the id of
      a category that is not excluded; in particular none is active when no
      category is selected or the selection matches nothing kept. */
  lemma SomeActiveIff(cats: seq<Category>, selected: Option<Id>)
    ensures (exists k :: 0 <= k < |BrowseList(cats, selected)| && BrowseList(cats, selected)[k].active)
        <==> (exists c :: c in cats && !Excluded(c.name) && selected == Some(c.id))
  {
    var r := BrowseList(cats, selected);
    if exists c :: c in cats && !Excluded(c.name) && selected == Some(c.id) {
      var c :| c in cats && !Excluded(c.name) && selected == Some(c.id);
      BrowseListKeepsEveryAllowed(cats, selected, c);
      var k :| 0 <= k < |r| && r[k].category == c;
      assert r[k].active;
    }
    if exists k :: 0 <= k < |r| && r[k].active {
      var k :| 0 <= k < |r| && r[k].active;
      var idx := BrowseListIsKeptSubsequence(cats, selected);
      assert cats[idx[k]] in cats && !Excluded(cats[idx[k]].name) && selected == Some(cats[idx[k]].id);
    }
  }

  /** With distinct upstream ids and a selection that names a kept category,
      exactly one browsing entry is active: the one for that category. */
  lemma ExactlyOneActive(cats: seq<Category>, selected: Option<Id>, c: Category)
    requires forall i, j :: 0 <= i < j < |cats| ==> cats[i].id != cats[j].id
    requires c in cats && !Excluded(c.name) && selected == Some(c.id)
    ensures exists k ::
      && 0 <= k < |BrowseList(cats, selected)|
      && BrowseList(cats, selected)[k] == ActiveCategory(c, true)
      && (forall l :: 0 <= l < |BrowseList(cats, selected)| && l != k ==> !BrowseList(cats, selected)[l].active)
  {
    var r := BrowseList(cats, selected);
    BrowseListKeepsEveryAllowed(cats, selected, c);
    var k :| 0 <= k < |r| && r[k].category == c;
    AtMostOneActive(cats, selected);
    assert r[k] == ActiveCategory(c, true);
  }

  /** `get_center_categories`: one request for the first page of ten
      categories, then the browsing list of whatever the page holds (nothing
      when the `categories` field is absent). */
  function GetCenterCategories(center: Id, selected: Option<Id>, up: Upstream): (r: Traced<seq<ActiveCategory>>)
    ensures r.sent == [ListCategories(center, 1, 1, 10)]
    ensures up.categories(ListCategories(center, 1, 1, 10)).None? ==> r.value == []
    ensures forall k :: 0 <= k < |r.value| ==>
      && up.categories(ListCategories(center, 1, 1, 10)).Some?
      && r.value[k].category in up.categories(ListCategories(center, 1, 1, 10)).value
      && !Excluded(r.value[k].category.name)
    ensures forall k :: 0 <= k < |r.value| ==>
      (r.value[k].active <==> selected == Some(r.value[k].category.id))
  {
    var req := ListCategories(center, 1, 1, 10);
    BrowseListFromUpstream(up.categories(req).GetOr([]), selected);
    Traced([req], BrowseList(up.categories(req).GetOr([]), selected))
  }

  /** Every category of the fetched page whose upper-cased name is not excluded
      is listed by `get_center_categories`. */
  lemma GetCenterCategoriesKeepsEveryAllowed(center: Id, selected: Option<Id>, up: Upstream, c: Category)
    requires up.categories(ListCategories(center, 1, 1, 10)).Some?
    requires c in up.categories(ListCategories(center, 1, 1, 10)).value && !Excluded(c.name)
    ensures exists k ::
      && 0 <= k < |GetCenterCategories(center, selected, up).value|
      && GetCenterCategories(center, selected, up).value[k].category == c
  {
    var page := up.categories(ListCategories(center, 1, 1, 10)).value;
    BrowseListKeepsEveryAllowed(page, selected, c);
    assert GetCenterCategories(center, selected, up).value == BrowseList(page, selected);
  }

  /** `get_center_categories` lists the kept categories in page order: entry k
      is the page's category at position idx[k], the positions ascend, and a
      position is listed exactly when its name is not excluded. */
  lemma GetCenterCategoriesInPageOrder(center: Id, selected: Option<Id>, up: Upstream) returns (idx: seq<nat>)
    ensures var page := up.categories(ListCategories(center, 1, 1, 10)).GetOr([]);
      var r := GetCenterCategories(center, selected, up).value;
      && |idx| == |r|
      && (forall k :: 0 <= k < |idx| ==> idx[k] < |page| && r[k].category == page[idx[k]])
      && (forall k, l :: 0 <= k < l < |idx| ==> idx[k] < idx[l])
      && (forall j :: 0 <= j < |page| ==> (j in idx <==> !Excluded(page[j].name)))
  {
    var page := up.categories(ListCategories(center, 1, 1, 10)).GetOr([]);
    idx := BrowseListIsKeptSubsequence(page, selected);
  }

  /** How the example's names upper-case: "Hair" is shown ... */
  lemma HairIsShown()
    ensures !Excluded("Hair")
  {
    assert Upper("Hair") == "HAIR";
  }

  /** ... "ADD-ON" is hidden ... */
  lemma AddOnIsHidden()
    ensures Excluded("ADD-ON")
  {
    assert Upper("ADD-ON") == "ADD-ON" == EXCLUDED_CATEGORIES[0];
  }

  /** ... and so is "Charges & Fees", whatever its case. */
  lemma ChargesAndFeesIsHidden()
    ensures Excluded("Charges & Fees")
  {
    assert Upper("Charges & Fees") == "CHARGES & FEES" == EXCLUDED_CATEGORIES[1];
  }

  /** The worked example: of Hair, ADD-ON and Charges & Fees only Hair is
      listed, and it is not active. */
  lemma BrowseListExample()
    ensures BrowseList(
      [ Category("A", "Hair", map[]),
        Category("B", "ADD-ON", map[]),
        Category("C", "Charges & Fees", map[]) ], None)
      == [ActiveCategory(Category("A", "Hair", map[]), false)]
  {
    var cats := [ Category("A", "Hair", map[]),
                  Category("B", "ADD-ON", map[]),
                  Category("C", "Charges & Fees", map[]) ];
    HairIsShown();
    AddOnIsHidden();
    ChargesAndFeesIsHidden();
    assert Browsable(cats[0]) && !Browsable(cats[1]) && !Browsable(cats[2]);
    assert Filter(cats[1..][1..], Browsable) == [];
    assert Filter(cats[1..], Browsable) == [];
    assert Filter(cats, Browsable) == [cats[0]];
  }

  // ---------------------------------------------------------------------------
  // Services
  // ---------------------------------------------------------------------------

  /** The services request: page 1 of ten, filtered by category only when the
      category id is truthy. */
  function ServicesRequest(center: Id, category: Option<Id>): (r: Request)
    ensures r.ListServices? && r.center == center && r.page == 1 && r.size == 10
    ensures r.categoryFilter.Some? <==> Given(category)
    ensures r.categoryFilter.Some? ==> r.categoryFilter == category
  {
    ListServices(center, 1, 10, if Given(category) then category else None)
  }

  /** `get_center_services`: always one request; an absent `services` field
      yields the empty list. */
  function GetCenterServices(center: Id, category: Option<Id>, up: Upstream): (r: Traced<seq<Service>>)
    ensures |r.sent| == 1 && r.sent[0].ListServices? && r.sent[0].center == center
    ensures r.sent[0].page == 1 && r.sent[0].size == 10
    ensures r.sent[0].categoryFilter.Some? <==> Given(category)
    ensures r.sent[0].categoryFilter.Some? ==> r.sent[0].categoryFilter == category
    ensures r.value == up.services(r.sent[0]).GetOr([])
  {
    var req := ServicesRequest(center, category);
    Traced([req], up.services(req).GetOr([]))
  }

  // ---------------------------------------------------------------------------
  // Add-ons
  // ---------------------------------------------------------------------------

  datatype Addons = Addons(suggested: seq<Service>, all: seq<Service>)

  /** The first four services become suggestions and the remainder is the full list. */
  function SplitAddons(services: seq<Service>): (r: Addons)
    ensures |r.suggested| <= SUGGESTED_ADDONS
    ensures |services| >= SUGGESTED_ADDONS ==> |r.suggested| == SUGGESTED_ADDONS
    ensures |r.all| == if |services| <= SUGGESTED_ADDONS then 0 else |services| - SUGGESTED_ADDONS
    ensures r.suggested + r.all == services
  {
    if |services| <= SUGGESTED_ADDONS then Addons(services, [])
    else Addons(services[..SUGGESTED_ADDONS], services[SUGGESTED_ADDONS..])
  }

  /** The other half of the round trip: any pair of lists that a split could
      produce (at most four suggestions, and nothing more unless there are
      four) is what splitting their concatenation gives back. */
  lemma SplitAddonsRoundTrip(a: Addons)
    requires |a.suggested| <= SUGGESTED_ADDONS
    requires |a.suggested| < SUGGESTED_ADDONS ==> a.all == []
    ensures SplitAddons(a.suggested + a.all) == a
  {
    var s := a.suggested + a.all;
    if |s| <= SUGGESTED_ADDONS {
      assert a.all == [] by {
        if |a.suggested| == SUGGESTED_ADDONS { assert |a.all| == 0; }
      }
      assert s == a.suggested;
    } else {
      assert s[..SUGGESTED_ADDONS] == a.suggested;
      assert s[SUGGESTED_ADDONS..] == a.all;
    }
  }

  /** The add-on test applied to a category's name. */
  predicate AddonCategory(c: Category) {
    IsAddon(c.name)
  }

  /** `get_center_addons`: fetch the first page of twenty categories, take the
      first add-on category in page order, list its services and split them.
      With no add-on category `get_center_addons` raises on `addons[0]`, after the
      categories request has been sent. */
  function GetCenterAddons(center: Id, up: Upstream): (r: Traced<Result<Addons, CatalogError>>)
    ensures r.value.Failure? <==>
      forall c :: c in up.categories(ListCategories(center, 1, 1, 20)).GetOr([]) ==> !IsAddon(c.name)
    ensures r.value.Failure? ==>
      r.value.error == NoAddonCategory && r.sent == [ListCategories(center, 1, 1, 20)]
    ensures r.value.Success? ==>
      && |r.sent| == 2
      && r.sent[0] == ListCategories(center, 1, 1, 20)
      && r.sent[1].ListServices? && r.sent[1].center == center
      && r.value.value.suggested + r.value.value.all == up.services(r.sent[1]).GetOr([])
    ensures r.value.Success? ==>
      && |r.value.value.suggested| <= SUGGESTED_ADDONS
      && (|up.services(r.sent[1]).GetOr([])| >= SUGGESTED_ADDONS ==> |r.value.value.suggested| == SUGGESTED_ADDONS)
      && |r.value.value.all| == if |up.services(r.sent[1]).GetOr([])| <= SUGGESTED_ADDONS then 0
                                else |up.services(r.sent[1]).GetOr([])| - SUGGESTED_ADDONS
  {
    var req := ListCategories(center, 1, 1, 20);
    var cats := up.categories(req).GetOr([]);
    match FirstIndex(cats, AddonCategory)
    case None => Traced([req], Failure(NoAddonCategory))
    case Some(j) =>
      var services := GetCenterServices(center, Some(cats[j].id), up);
      Traced([req] + services.sent, Success(SplitAddons(services.value)))
  }

  /** The add-on services listed are those of the first add-on category in
      upstream page order, even when later categories are add-ons too. */
  lemma AddonsOfFirstAddonCategory(center: Id, up: Upstream, j: nat)
    requires j < |up.categories(ListCategories(center, 1, 1, 20)).GetOr([])|
    requires IsAddon(up.categories(ListCategories(center, 1, 1, 20)).GetOr([])[j].name)
    requires forall i :: 0 <= i < j ==> !IsAddon(up.categories(ListCategories(center, 1, 1, 20)).GetOr([])[i].name)
    ensures GetCenterAddons(center, up).value.Success?
    ensures GetCenterAddons(center, up).sent[1]
      == ServicesRequest(center, Some(up.categories(ListCategories(center, 1, 1, 20)).GetOr([])[j].id))
  {
    var cats := up.categories(ListCategories(center, 1, 1, 20)).GetOr([]);
    assert AddonCategory(cats[j]);
  }

  // ---------------------------------------------------------------------------
  // Optional selections
  // ---------------------------------------------------------------------------

  /** `get_center_category`: no request and an empty result when either id is
      falsy; otherwise one request, and an empty body is an empty result. */
  function GetCenterCategory(center: Id, category: Option<Id>, up: Upstream): (r: Traced<Option<Category>>)
    ensures r.sent == [] <==> center == "" || !Given(category)
    ensures r.sent == [] ==> r.value == None
    ensures r.sent != [] ==>
      r.sent == [FetchCategory(center, category.value)] && r.value == up.category(r.sent[0])
  {
    if center == "" || !Given(category) then Traced([], None)
    else
      var req := FetchCategory(center, category.value);
      Traced([req], up.category(req))
  }

  /** `get_center_service`: the same optional-selection contract as categories. */
  function GetCenterService(center: Id, service: Option<Id>, up: Upstream): (r: Traced<Option<Service>>)
    ensures r.sent == [] <==> center == "" || !Given(service)
    ensures r.sent == [] ==> r.value == None
    ensures r.sent != [] ==>
      r.sent == [FetchService(center, service.value)] && r.value == up.service(r.sent[0])
  {
    if center == "" || !Given(service) then Traced([], None)
    else
      var req := FetchService(center, service.value);
      Traced([req], up.service(req))
  }

  // ---------------------------------------------------------------------------
  // Therapists
  // ---------------------------------------------------------------------------

  /** `get_center_therapists`: no request and no therapists for a falsy center;
      an absent `therapists` field yields the empty list. */
  function GetCenterTherapists(center: Id, up: Upstream): (r: Traced<seq<Therapist>>)
    ensures r.sent == [] <==> center == ""
    ensures r.sent == [] ==> r.value == []
    ensures r.sent != [] ==>
      r.sent == [ListTherapists(center)] && r.value == up.therapists(r.sent[0]).GetOr([])
  {
    if center == "" then Traced([], [])
    else
      var req := ListTherapists(center);
      Traced([req], up.therapists(req).GetOr([]))
  }

  /** `get_center_therapist`: an in-memory lookup. Nothing is selected when the
      list is empty or the id is falsy; otherwise the first therapist with that
      id, and `get_center_therapist` raises when there is none. */
  function GetCenterTherapist(therapists: seq<Therapist>, id: Option<Id>): (r: Result<Option<Therapist>, CatalogError>)
    ensures r == Success(None) <==> therapists == [] || !Given(id)
    ensures r.Failure? <==>
      therapists != [] && Given(id) && forall i :: 0 <= i < |therapists| ==> therapists[i].id != id.value
    ensures r.Failure? ==> r.error == TherapistNotFound
    ensures r.Success? && r.value.Some? ==>
      exists j :: 0 <= j < |therapists| && therapists[j] == r.value.value
        && r.value.value.id == id.value
        && forall i :: 0 <= i < j ==> therapists[i].id != id.value
  {
    if therapists == [] || !Given(id) then Success(None)
    else
      match FirstIndex(therapists, (t: Therapist) => t.id == id.value)
      case None => Failure(TherapistNotFound)
      case Some(j) => Success(Some(therapists[j]))
  }

  /** With distinct therapist ids, the lookup returns the unique therapist
      carrying the id, whenever one is listed. */
  lemma TherapistLookupUnique(therapists: seq<Therapist>, id: Id, j: nat)
    requires forall a, b :: 0 <= a < b < |therapists| ==> therapists[a].id != therapists[b].id
    requires j < |therapists| && therapists[j].id == id && id != ""
    ensures GetCenterTherapist(therapists, Some(id)) == Success(Some(therapists[j]))
  {
    var r := GetCenterTherapist(therapists, Some(id));
    var k :| 0 <= k < |therapists| && therapists[k] == r.value.value && r.value.value.id == id
      && forall i :: 0 <= i < k ==> therapists[i].id != id;
    if k < j {
      assert therapists[k].id == therapists[j].id;
    }
  }
}
