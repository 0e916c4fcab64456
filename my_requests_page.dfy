/**
 * A resident's own requests (src/pages/MyRequestsPage.tsx): the status/category
 * filter over the loaded list, the optimistic removal of a deleted request, the
 * delete dialog and the filter reset. The component state is the class
 * `MyRequestsState`; the filter itself is the pure function `Filtered`.
 */
module MyRequestsPage {
  import opened Wrappers
  import opened Fetch
  import opened SeqFilter

  datatype Category = Category(id: string, name: string)

  /** A request as the resident's list receives it; `category` is an `{id, name}` object. */
  datatype Request = Request(
    id: int,
    title: string,
    description: string,
    category: Category,
    status: string,
    photoUrl: Option<string>,
    date: string)

  /** The filter value that switches a filter off. */
  const All: string := "all"

  /** The keys of the page's status map, which are also the status filter's options. */
  const StatusKeys: seq<string> := ["new", "inProgress", "completed", "rejected"]

  /** The literal status string the delete button is rendered for. */
  const DeletableStatus: string := "Новая"

  // ---------------------------------------------------------------------------
  // The filter effect

  function StatusIs(status: string): Request -> bool
  {
    (r: Request) => r.status == status
  }

  function CategoryNameIs(name: string): Request -> bool
  {
    (r: Request) => r.category.name == name
  }

  /** The reference condition: a request passes both filters, each vacuous when `all`. */
  predicate Matches(r: Request, statusFilter: string, categoryFilter: string)
  {
    && (statusFilter == All || r.status == statusFilter)
    && (categoryFilter == All || r.category.name == categoryFilter)
  }

  function MatchesFilters(statusFilter: string, categoryFilter: string): Request -> bool
  {
    (r: Request) => Matches(r, statusFilter, categoryFilter)
  }

  /**
   * The list the filter effect stores in `filteredRequests`: a copy of `requests`,
   * narrowed by status unless that filter is `all`, then by category name unless
   * that filter is `all`. The two steps amount to one filter by the conjunction.
   */
  function Filtered(requests: seq<Request>, statusFilter: string, categoryFilter: string): (shown: seq<Request>)
    ensures shown == Filter(requests, MatchesFilters(statusFilter, categoryFilter))
  {
    var byStatus := if statusFilter != All then Filter(requests, StatusIs(statusFilter)) else requests;
    var shown := if categoryFilter != All then Filter(byStatus, CategoryNameIs(categoryFilter)) else byStatus;
    var matches := MatchesFilters(statusFilter, categoryFilter);
    if statusFilter != All && categoryFilter != All then
      FilterFuse(requests, StatusIs(statusFilter), CategoryNameIs(categoryFilter), matches); shown
    else if statusFilter != All then
      FilterExt(requests, StatusIs(statusFilter), matches); shown
    else if categoryFilter != All then
      FilterExt(requests, CategoryNameIs(categoryFilter), matches); shown
    else
      FilterKeepsAll(requests, matches); shown
  }

  /** A request is shown iff it is loaded and passes both filters. */
  lemma FilteredMembership(requests: seq<Request>, statusFilter: string, categoryFilter: string, r: Request)
    ensures r in Filtered(requests, statusFilter, categoryFilter) <==> r in requests && Matches(r, statusFilter, categoryFilter)
  {
    FilterMembership(requests, MatchesFilters(statusFilter, categoryFilter), r);
  }

  /** Each passing request is shown as many times as it is loaded, each other one never. */
  lemma FilteredMultiplicity(requests: seq<Request>, statusFilter: string, categoryFilter: string, r: Request)
    ensures multiset(Filtered(requests, statusFilter, categoryFilter))[r]
         == if Matches(r, statusFilter, categoryFilter) then multiset(requests)[r] else 0
  {
    FilterMultiplicity(requests, MatchesFilters(statusFilter, categoryFilter), r);
  }

  /** The shown list keeps the loaded order and is no longer than the loaded list. */
  lemma FilteredIsSubsequence(requests: seq<Request>, statusFilter: string, categoryFilter: string)
    ensures IsSubsequence(Filtered(requests, statusFilter, categoryFilter), requests)
    ensures |Filtered(requests, statusFilter, categoryFilter)| <= |requests|
  {
    FilterIsSubsequence(requests, MatchesFilters(statusFilter, categoryFilter));
  }

  /** Every shown request carries the selected status and category name. */
  lemma FilteredSatisfiesFilters(requests: seq<Request>, statusFilter: string, categoryFilter: string)
    ensures forall i :: 0 <= i < |Filtered(requests, statusFilter, categoryFilter)| ==>
      var r := Filtered(requests, statusFilter, categoryFilter)[i];
      (statusFilter != All ==> r.status == statusFilter) && (categoryFilter != All ==> r.category.name == categoryFilter)
  {
  }

  /** Narrowing by category first and by status second gives the same list. */
  lemma FilteredOrderIndependent(requests: seq<Request>, statusFilter: string, categoryFilter: string)
    requires statusFilter != All && categoryFilter != All
    ensures Filtered(requests, statusFilter, categoryFilter)
         == Filter(Filter(requests, CategoryNameIs(categoryFilter)), StatusIs(statusFilter))
  {
    FilterCommutes(requests, StatusIs(statusFilter), CategoryNameIs(categoryFilter));
  }

  /** With both filters at `all` the shown list is the loaded list. */
  lemma FilteredAllIsIdentity(requests: seq<Request>)
    ensures Filtered(requests, All, All) == requests
  {
  }

  // ---------------------------------------------------------------------------
  // Deletion

  function IdIsNot(id: int): Request -> bool
  {
    (r: Request) => r.id != id
  }

  /** The list after a confirmed delete: every request but those with the deleted id. */
  function WithoutId(requests: seq<Request>, id: int): (rest: seq<Request>)
    ensures IsSubsequence(rest, requests) && |rest| <= |requests|
    ensures forall i :: 0 <= i < |rest| ==> rest[i].id != id
  {
    FilterIsSubsequence(requests, IdIsNot(id));
    Filter(requests, IdIsNot(id))
  }

  /**
   * Deleting `id` removes exactly the requests with that id: the others keep their
   * order and multiplicity, none with that id is left.
   */
  lemma WithoutIdRemovesExactly(requests: seq<Request>, id: int, r: Request)
    ensures r in WithoutId(requests, id) <==> r in requests && r.id != id
    ensures multiset(WithoutId(requests, id))[r] == if r.id != id then multiset(requests)[r] else 0
    ensures IsSubsequence(WithoutId(requests, id), requests)
    ensures forall i :: 0 <= i < |WithoutId(requests, id)| ==> WithoutId(requests, id)[i].id != id
  {
    FilterMembership(requests, IdIsNot(id), r);
    FilterMultiplicity(requests, IdIsNot(id), r);
  }

  /** Deleting an id no loaded request has leaves the list as it was. */
  lemma WithoutAbsentId(requests: seq<Request>, id: int)
    requires forall i :: 0 <= i < |requests| ==> requests[i].id != id
    ensures WithoutId(requests, id) == requests
  {
    FilterKeepsAll(requests, IdIsNot(id));
  }

  /**
   * Whether a card offers the delete button. It compares the status with the
   * Russian label, so a request whose status is one of the status map's keys is
   * never offered deletion.
   */
  function CanOfferDelete(r: Request): (offered: bool)
    ensures offered <==> r.status == DeletableStatus
    ensures offered ==> r.status !in StatusKeys
  {
    r.status == DeletableStatus
  }

  /** The confirm button fires a delete only for a present, non-zero id (JavaScript truthiness). */
  function ConfirmTarget(deleteRequestId: Option<int>): (target: Option<int>)
    ensures target.Some? <==> deleteRequestId.Some? && deleteRequestId.value != 0
    ensures target.Some? ==> target == deleteRequestId
  {
    match deleteRequestId
    case Some(id) => if id != 0 then Some(id) else None
    case None => None
  }

  // ---------------------------------------------------------------------------
  // The category filter's options

  function Digit(d: nat): (c: char)
    requires d < 10
    ensures '0' <= c <= '9' && c as int - '0' as int == d
  {
    ('0' as int + d) as char
  }

  /** `String(n)` for a natural number: its decimal digits, without leading zeros. */
  function IndexString(n: nat): (s: string)
    ensures IsDecimal(s)
    ensures DecimalValue(s) == n
    ensures s[0] == '0' ==> s == "0"
  {
    if n < 10 then [Digit(n)]
    else
      var s := IndexString(n / 10) + [Digit(n % 10)];
      assert s[..|s| - 1] == IndexString(n / 10);
      assert s[0] == IndexString(n / 10)[0];
      s
  }

  /** The number a string of decimal digits denotes, most significant digit first. */
  function DecimalValue(s: string): int
    decreases |s|
  {
    if s == [] then 0 else DecimalValue(s[..|s| - 1]) * 10 + (s[|s| - 1] as int - '0' as int)
  }

  predicate IsDecimal(s: string)
  {
    |s| > 0 && forall i :: 0 <= i < |s| ==> '0' <= s[i] <= '9'
  }

  /**
   * The values of the category select: `all`, then the keys `Object.entries`
   * yields for the category array, which are the array indices as strings.
   */
  function CategoryOptionValues(categoryMap: seq<Category>): (values: seq<string>)
    ensures |values| == |categoryMap| + 1 && values[0] == All
    ensures forall k :: 1 <= k < |values| ==> values[k] == IndexString(k - 1)
    ensures forall k :: 1 <= k < |values| ==> IsDecimal(values[k]) && DecimalValue(values[k]) == k - 1
  {
    [All] + seq(|categoryMap|, (i: int) requires 0 <= i => IndexString(i))
  }

  /**
   * As written, choosing any category option hides every request whose category
   * name is not a decimal numeral, whatever the status filter: the option value
   * is an index, not a name.
   */
  lemma CategoryOptionHidesNamedCategories(requests: seq<Request>, categoryMap: seq<Category>, k: nat,
                                           statusFilter: string, r: Request)
    requires 1 <= k < |categoryMap| + 1
    requires !IsDecimal(r.category.name)
    ensures r !in Filtered(requests, statusFilter, CategoryOptionValues(categoryMap)[k])
  {
    var v := CategoryOptionValues(categoryMap)[k];
    assert IsDecimal(v);
    assert v != All by { assert All[0] == 'a'; }
    FilteredMembership(requests, statusFilter, v, r);
  }

  /** A concrete case: the only category is "roads", the only request is in it, and choosing it shows nothing. */
  lemma CategoryOptionCounterexample()
    ensures var roads := Category("1", "roads");
            var pothole := Request(1, "Яма", "Яма на дороге", roads, "new", None, "2024-01-01");
            var value := CategoryOptionValues([roads])[1];
            pothole.category.name == [roads][0].name && Filtered([pothole], All, value) == []
  {
    var roads := Category("1", "roads");
    var pothole := Request(1, "Яма", "Яма на дороге", roads, "new", None, "2024-01-01");
    var shown := Filtered([pothole], All, CategoryOptionValues([roads])[1]);
    assert !IsDecimal(roads.name) by { assert roads.name[0] == 'r'; }
    CategoryOptionHidesNamedCategories([pothole], [roads], 1, All, pothole);
    if shown != [] {
      FilteredMembership([pothole], All, CategoryOptionValues([roads])[1], shown[0]);
    }
  }

  /** The evidently intended option values: `all`, then each category's name. */
  function CategoryOptionValuesByName(categoryMap: seq<Category>): (values: seq<string>)
    ensures |values| == |categoryMap| + 1 && values[0] == All
    ensures forall k :: 1 <= k < |values| ==> values[k] == categoryMap[k - 1].name
  {
    [All] + seq(|categoryMap|, (i: int) requires 0 <= i < |categoryMap| => categoryMap[i].name)
  }

  /**
   * With name-valued options, choosing the option of a category shows exactly the
   * loaded requests in that category (for any category not literally named `all`).
   */
  lemma CategoryOptionByNameShowsCategory(requests: seq<Request>, categoryMap: seq<Category>, k: nat, r: Request)
    requires k < |categoryMap| && categoryMap[k].name != All
    ensures r in Filtered(requests, All, CategoryOptionValuesByName(categoryMap)[k + 1])
        <==> r in requests && r.category.name == categoryMap[k].name
  {
    FilteredMembership(requests, All, CategoryOptionValuesByName(categoryMap)[k + 1], r);
  }

  // ---------------------------------------------------------------------------
  // The component state

  class MyRequestsState {
    var requests: seq<Request>
    var filteredRequests: seq<Request>
    var isLoading: bool
    var deleteRequestId: Option<int>
    var statusFilter: string
    var categoryFilter: string
    var categoryMap: seq<Category>

    /** The filter effect has caught up with the current list and filters. */
    predicate FiltersApplied()
      reads this
    {
      filteredRequests == Filtered(requests, statusFilter, categoryFilter)
    }

    /** The state on first render. */
    constructor ()
      ensures requests == [] && filteredRequests == [] && isLoading
      ensures deleteRequestId == None && statusFilter == All && categoryFilter == All
      ensures categoryMap == []
      ensures FiltersApplied()
    {
      requests, filteredRequests := [], [];
      isLoading := true;
      deleteRequestId := None;
      statusFilter, categoryFilter := All, All;
      categoryMap := [];
    }

    /**
     * The resident's requests arrive. Without a signed-in user with a truthy id
     * nothing is fetched and loading never ends; otherwise loading ends, and only
     * an ok, well-formed response replaces both lists.
     */
    method ReceiveMyRequests(userId: Option<int>, reply: Reply<seq<Request>>)
      modifies this`requests, this`filteredRequests, this`isLoading
      ensures userId == None || userId == Some(0) ==>
        requests == old(requests) && filteredRequests == old(filteredRequests) && isLoading == old(isLoading)
      ensures userId.Some? && userId.value != 0 ==>
        !isLoading &&
        (if Delivered(reply) then requests == reply.body.value && filteredRequests == reply.body.value
         else requests == old(requests) && filteredRequests == old(filteredRequests))
    {
      if userId == None || userId == Some(0) {
        return;
      }
      if Delivered(reply) {
        requests := reply.body.value;
        filteredRequests := reply.body.value;
      }
      isLoading := false;
    }

    /** The category list arrives; any parsed body is stored, ok status or not. */
    method ReceiveCategoryMap(reply: Reply<seq<Category>>)
      modifies this`categoryMap
      ensures categoryMap == if reply.Received? && reply.body.Json? then reply.body.value else old(categoryMap)
    {
      if reply.Received? && reply.body.Json? {
        categoryMap := reply.body.value;
      }
    }

    /** The filter effect, run after any change of the list or of a filter. */
    method ApplyFilters()
      modifies this`filteredRequests
      ensures FiltersApplied()
      ensures IsSubsequence(filteredRequests, requests)
    {
      filteredRequests := Filtered(requests, statusFilter, categoryFilter);
      FilteredIsSubsequence(requests, statusFilter, categoryFilter);
    }

    method SetStatusFilter(value: string)
      modifies this`statusFilter
      ensures statusFilter == value
    {
      statusFilter := value;
    }

    method SetCategoryFilter(value: string)
      modifies this`categoryFilter
      ensures categoryFilter == value
    {
      categoryFilter := value;
    }

    /** Both filters back to `all`; once the effect runs the whole list is shown. */
    method ClearFilters()
      modifies this`statusFilter, this`categoryFilter
      ensures statusFilter == All && categoryFilter == All
      ensures Filtered(requests, statusFilter, categoryFilter) == requests
    {
      statusFilter := All;
      categoryFilter := All;
      FilteredAllIsIdentity(requests);
    }

    /** The delete dialog is open whenever an id is held, including 0. */
    function DialogOpen(): (open: bool)
      reads this
      ensures ConfirmTarget(deleteRequestId).Some? ==> open
      ensures deleteRequestId == Some(0) ==> open
      ensures deleteRequestId == None ==> !open
    {
      deleteRequestId.Some?
    }

    method OpenDeleteDialog(requestId: int)
      modifies this`deleteRequestId
      ensures deleteRequestId == Some(requestId) && DialogOpen()
    {
      deleteRequestId := Some(requestId);
    }

    method CloseDeleteDialog()
      modifies this`deleteRequestId
      ensures deleteRequestId == None && !DialogOpen()
    {
      deleteRequestId := None;
    }

    /**
     * The end of a delete call. An ok response removes the request with that id
     * from the list and closes the dialog; any failure changes nothing.
     */
    method HandleDeleteRequest(requestId: int, reply: Reply<()>)
      modifies this`requests, this`deleteRequestId
      ensures Succeeded(reply) ==> requests == WithoutId(old(requests), requestId) && deleteRequestId == None
      ensures !Succeeded(reply) ==> requests == old(requests) && deleteRequestId == old(deleteRequestId)
    {
      if !Succeeded(reply) {
        return;
      }
      requests := WithoutId(requests, requestId);
      deleteRequestId := None;
    }

    /** The dialog's delete button: a delete is issued only for a present, non-zero id. */
    method ConfirmDelete(reply: Reply<()>) returns (fired: bool)
      modifies this`requests, this`deleteRequestId
      ensures fired <==> old(deleteRequestId).Some? && old(deleteRequestId).value != 0
      ensures fired && Succeeded(reply) ==>
        requests == WithoutId(old(requests), old(deleteRequestId).value) && deleteRequestId == None
      ensures !(fired && Succeeded(reply)) ==>
        requests == old(requests) && deleteRequestId == old(deleteRequestId)
    {
      var target := ConfirmTarget(deleteRequestId);
      fired := target.Some?;
      if fired {
        HandleDeleteRequest(target.value, reply);
      }
    }
  }

  /** A dialog opened for id 0 stays open and deletes nothing when confirmed. */
  method ZeroIdScenario(reply: Reply<()>)
  {
    var page := new MyRequestsState();
    page.OpenDeleteDialog(0);
    var fired := page.ConfirmDelete(reply);
    assert !fired && page.DialogOpen() && page.requests == [];
  }
}
