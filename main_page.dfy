/**
 * The public list of residents' requests (src/pages/MainPage.tsx): the requests
 * fetched once, the number of resolved ones, the category badge and whether a
 * request's photo is shown. Everything here is derived from the fetched data.
 */
module MainPage {
  import opened Wrappers
  import opened Fetch
  import opened SeqFilter

  /** A request as the public list receives it; `category` is a plain key string. */
  datatype Request = Request(
    id: int,
    title: string,
    description: string,
    category: string,
    status: string,
    photoUrl: Option<string>,
    date: string)

  /** The status value that counts as resolved. */
  const Completed: string := "completed"

  /** The fixed category keys and their Russian display names. */
  const CategoryNames: map<string, string> :=
    map["roads" := "Дороги", "landscaping" := "Благоустройство", "lighting" := "Освещение", "other" := "Другое"]

  function IsCompleted(r: Request): bool
  {
    r.status == Completed
  }

  /** The resolved-requests counter: the length of the completed-only filter. */
  function CompletedCount(requests: seq<Request>): (n: nat)
    ensures n <= |requests|
  {
    |Filter(requests, IsCompleted)|
  }

  /** Independent description of the counter: the positions holding a completed request. */
  ghost function CompletedPositions(requests: seq<Request>): set<int>
  {
    set i | 0 <= i < |requests| && requests[i].status == Completed
  }

  /** The counter equals the number of positions whose request has status `completed`. */
  lemma {:induction false} CompletedCountIsPositionCount(requests: seq<Request>)
    ensures CompletedCount(requests) == |CompletedPositions(requests)|
  {
    if requests != [] {
      var n := |requests| - 1;
      var init, last := requests[..n], requests[n];
      assert requests == init + [last];
      CompletedCountIsPositionCount(init);
      FilterAppend(init, [last], IsCompleted);
      if IsCompleted(last) {
        assert CompletedPositions(requests) == CompletedPositions(init) + {n};
        assert n !in CompletedPositions(init);
      } else {
        assert CompletedPositions(requests) == CompletedPositions(init);
      }
    }
  }

  /** The badge text: the mapped Russian name of a known key, the key itself otherwise. */
  function CategoryLabel(category: string): (badge: string)
    ensures category in CategoryNames ==> badge == CategoryNames[category]
    ensures category !in CategoryNames ==> badge == category
  {
    if category in CategoryNames && CategoryNames[category] != "" then CategoryNames[category] else category
  }

  /** A badge is blank only for a blank category. */
  lemma CategoryLabelBlankOnlyForBlank(category: string)
    ensures CategoryLabel(category) == "" <==> category == ""
  {
    if category in CategoryNames {
      assert category in {"roads", "landscaping", "lighting", "other"};
    }
  }

  /** The photo is rendered iff the URL is present and not the empty string. */
  function PhotoShown(photoUrl: Option<string>): (shown: bool)
    ensures shown <==> photoUrl.Some? && |photoUrl.value| > 0
  {
    match photoUrl
    case None => false
    case Some(url) => url != ""
  }

  /** The page state: the fetched list, the counter and the loading flag. */
  datatype View = View(requests: seq<Request>, stats: nat, isLoading: bool)

  /** Before the fetch completes: nothing loaded, counter 0, spinner shown. */
  const Initial: View := View([], 0, true)

  /**
   * The state after the one fetch of the page. Only an ok response with a
   * well-formed body sets the list and the counter, both from the same data;
   * any failure leaves them as they started. Loading ends either way.
   */
  function Load(reply: Reply<seq<Request>>): (v: View)
    ensures !v.isLoading
    ensures v.stats == |CompletedPositions(v.requests)|
    ensures v.stats <= |v.requests|
    ensures Delivered(reply) ==> v.requests == reply.body.value
    ensures !Delivered(reply) ==> v.requests == Initial.requests && v.stats == Initial.stats
  {
    if Delivered(reply) then
      var data := reply.body.value;
      CompletedCountIsPositionCount(data);
      View(data, CompletedCount(data), false)
    else
      View(Initial.requests, Initial.stats, false)
  }
}
