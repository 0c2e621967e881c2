/**
 * The project activity side panel in the browser: the sentence shown for an
 * audit row, the tag stripping applied to comment text, and the list that
 * grows one server page at a time as the user scrolls.
 */
module ActivitySidebar {
  import opened Common
  import opened Schema
  import ProjectActivity
  import TaskService

  // ---------------------------------------------------------------------------
  // formatActivityMessage
  // ---------------------------------------------------------------------------

  /** A decoded JSON value as the browser holds it (numbers restricted to integers). */
  datatype JsValue =
    | JsNull
    | JsString(s: string)
    | JsNumber(n: int)
    | JsBool(b: bool)
    | JsArray(length: nat)
    | JsObject(keys: seq<string>)

  /** JavaScript truthiness: null, `""`, `0` and `false` are falsy; arrays and objects are truthy. */
  predicate JsTruthy(v: JsValue) {
    match v
    case JsNull => false
    case JsString(s) => s != ""
    case JsNumber(n) => n != 0
    case JsBool(b) => b
    case JsArray(_) => true
    case JsObject(_) => true
  }

  /**
   * The keys `Object.keys` lists that can name a field: an object's own keys.
   * A string's or an array's keys are decimal indices, which no field name is.
   */
  function NamedKeys(v: JsValue): seq<string> {
    if v.JsObject? then v.keys else []
  }

  /** The value an audit row's `old_value`/`new_value` column decodes to. */
  function Decoded(j: Json): JsValue {
    match j
    case JNull => JsNull
    case JText(s) => JsString(s)
    case JInt(n) => JsNumber(n)
    case JObject(k, _) => JsObject([k])
  }

  /**
   * `formatActivityMessage`: one of the fixed sentences for the five known
   * actions, otherwise `performed action: ` and the action's name.
   */
  function FormatActivityMessage(action: string, oldValue: JsValue, newValue: JsValue): (r: string)
    ensures action == "created" ==> r == "created this task"
    ensures action == "updated" ==>
      r in ["changed status", "changed priority", "changed assignee", "updated the task"]
    ensures action == "comment" ==> r == "commented on the task"
    ensures action == "deleted" ==> r == "deleted the task"
    ensures action !in ["created", "updated", "comment", "deleted"] ==> r == "performed action: " + action
  {
    if action == "created" then "created this task"
    else if action == "updated" then
      if JsTruthy(oldValue) && JsTruthy(newValue) then
        var keys := NamedKeys(newValue);
        if "status_id" in keys then "changed status"
        else if "priority" in keys then "changed priority"
        else if "assignee_id" in keys then "changed assignee"
        else "updated the task"
      else "updated the task"
    else if action == "comment" then "commented on the task"
    else if action == "deleted" then "deleted the task"
    else "performed action: " + action
  }

  /**
   * For an `updated` row whose both values are present, a `status_id` key wins
   * over `priority`, which wins over `assignee_id`, and an object with none of
   * them reads `updated the task`; so does a row missing either value.
   */
  lemma UpdatedKeyPrecedence(oldValue: JsValue, keys: seq<string>, newValue: JsValue)
    ensures JsTruthy(oldValue) && "status_id" in keys ==>
      FormatActivityMessage("updated", oldValue, JsObject(keys)) == "changed status"
    ensures JsTruthy(oldValue) && "status_id" !in keys && "priority" in keys ==>
      FormatActivityMessage("updated", oldValue, JsObject(keys)) == "changed priority"
    ensures JsTruthy(oldValue) && "status_id" !in keys && "priority" !in keys && "assignee_id" in keys ==>
      FormatActivityMessage("updated", oldValue, JsObject(keys)) == "changed assignee"
    ensures JsTruthy(oldValue) && "status_id" !in keys && "priority" !in keys && "assignee_id" !in keys ==>
      FormatActivityMessage("updated", oldValue, JsObject(keys)) == "updated the task"
    ensures !JsTruthy(oldValue) ==>
      FormatActivityMessage("updated", oldValue, JsObject(keys)) == "updated the task"
    ensures !JsTruthy(newValue) ==>
      FormatActivityMessage("updated", oldValue, newValue) == "updated the task"
  {
  }

  /**
   * The rows the server writes for a task update are named `<Label>_updated`,
   * which none of the cases matches: the panel shows them as
   * `performed action: <Label>_updated`.
   */
  lemma UpdateRowsReadAsPerformed(f: TaskService.Tracked, oldValue: Json, newValue: Json)
    ensures FormatActivityMessage(TaskService.Label(f) + "_updated", Decoded(oldValue), Decoded(newValue))
      == "performed action: " + TaskService.Label(f) + "_updated"
  {
    var l := TaskService.Label(f) + "_updated";
    assert |TaskService.Label(f)| > 0;
    assert |l| > |"updated"|;
  }

  // ---------------------------------------------------------------------------
  // stripTags: html.replace(/<[^>]*>?/gm, '')
  // ---------------------------------------------------------------------------

  predicate NoOpenBracket(s: string) {
    forall i :: 0 <= i < |s| ==> s[i] != '<'
  }

  /** How much of `s` the `[^>]*>?` part of the pattern takes: up to and including the first `>`, or all of it. */
  function TagRest(s: string): (n: nat)
    ensures n <= |s|
  {
    if s == [] then 0
    else if s[0] == '>' then 1
    else 1 + TagRest(s[1..])
  }

  /** Every `<` starts a match that runs to the next `>` (or the end), which is removed; other characters stay. */
  function StripTags(s: string): (r: string)
    ensures NoOpenBracket(r)
    ensures |r| <= |s|
    decreases |s|
  {
    if s == [] then []
    else if s[0] == '<' then StripTags(s[1 + TagRest(s[1..])..])
    else [s[0]] + StripTags(s[1..])
  }

  /** Text with no `<` passes through unchanged. */
  lemma {:induction false} StripTagsKeepsPlainText(s: string)
    requires NoOpenBracket(s)
    ensures StripTags(s) == s
  {
    if s != [] {
      StripTagsKeepsPlainText(s[1..]);
    }
  }

  /** Stripping twice is stripping once. */
  lemma StripTagsIdempotent(s: string)
    ensures StripTags(StripTags(s)) == StripTags(s)
  {
    StripTagsKeepsPlainText(StripTags(s));
  }

  /** Plain text in front of the rest is kept as it is. */
  lemma {:induction false} StripTagsKeepsPlainPrefix(p: string, s: string)
    requires NoOpenBracket(p)
    ensures StripTags(p + s) == p + StripTags(s)
  {
    if p != [] {
      var x := p + s;
      assert x[0] == p[0] && x[1..] == p[1..] + s;
      assert StripTags(x) == [p[0]] + StripTags(p[1..] + s);
      StripTagsKeepsPlainPrefix(p[1..], s);
      assert p + StripTags(s) == [p[0]] + (p[1..] + StripTags(s));
    } else {
      assert p + s == s && p + StripTags(s) == StripTags(s);
    }
  }

  /** A whole tag `<...>` in front of the rest is dropped. */
  lemma StripTagsDropsTag(t: string, s: string)
    requires forall i :: 0 <= i < |t| ==> t[i] != '>'
    ensures StripTags("<" + t + ">" + s) == StripTags(s)
  {
    var x := "<" + t + ">" + s;
    TagRestToClose(t, s);
    assert x[1..] == t + ">" + s;
    assert x[1 + |t| + 1..] == s;
  }

  lemma {:induction false} TagRestToClose(t: string, s: string)
    requires forall i :: 0 <= i < |t| ==> t[i] != '>'
    ensures TagRest(t + ">" + s) == |t| + 1
  {
    if t != [] {
      assert (t + ">" + s)[1..] == t[1..] + ">" + s;
      TagRestToClose(t[1..], s);
    }
  }

  // ---------------------------------------------------------------------------
  // Paging: fetchActivities / loadMore
  // ---------------------------------------------------------------------------

  /** The list after a page's rows arrive: page 1 replaces it, a later page extends it. */
  function Accumulate(held: seq<Activity>, pageNum: int, data: seq<Activity>): seq<Activity> {
    if pageNum == 1 then data else held + data
  }

  /** The component state `fetchActivities` and `loadMore` work on. */
  class ActivityPager {
    var activities: seq<Activity>
    var loading: bool
    var page: int
    var hasMore: bool

    /** The `useState` initial values. */
    constructor ()
      ensures activities == [] && !loading && page == 1 && hasMore
    {
      activities, loading, page, hasMore := [], false, 1, true;
    }

    /** Opening the panel: page 1 is requested and the page counter reset. */
    method Open() returns (request: int)
      modifies this`loading, this`page
      ensures request == 1 && page == 1 && loading
    {
      loading := true;
      page := 1;
      request := 1;
    }

    /** Closing the panel empties the list. */
    method Close()
      modifies this`activities
      ensures activities == []
    {
      activities := [];
    }

    /**
     * `loadMore`: only when no request is in flight and the last page said
     * there is more, it moves to the next page and requests it; otherwise
     * nothing happens.
     */
    method LoadMore() returns (request: Option<int>)
      modifies this`loading, this`page
      ensures old(!loading && hasMore) ==> page == old(page) + 1 && request == Some(page) && loading
      ensures !old(!loading && hasMore) ==> request == None && page == old(page) && loading == old(loading)
    {
      if !loading && hasMore {
        page := page + 1;
        loading := true;
        request := Some(page);
      } else {
        request := None;
      }
    }

    /** A response for `pageNum` arrives with its rows and whether `next_page_url` is set. */
    method Receive(pageNum: int, data: seq<Activity>, hasNext: bool)
      modifies this`activities, this`hasMore, this`loading
      ensures activities == Accumulate(old(activities), pageNum, data)
      ensures hasMore == hasNext && !loading
    {
      if pageNum == 1 {
        activities := data;
      } else {
        activities := activities + data;
      }
      hasMore := hasNext;
      loading := false;
    }

    /** A failed request is logged and only clears the loading flag. */
    method Fail()
      modifies this`loading
      ensures !loading
    {
      loading := false;
    }
  }

  /** The list after the server's answers for pages `1..n` arrived in order. */
  function Received(s: seq<Activity>, n: nat): seq<Activity> {
    if n == 0 then [] else Accumulate(Received(s, n - 1), n, ProjectActivity.Paginate(s, n).data)
  }

  /**
   * Scrolling through the server's pages rebuilds the listing: after pages
   * `1..n` the panel holds its first `50 n` rows, and when the server says
   * there is no next page it holds all of them.
   */
  lemma {:induction false} ReceivedPagesArePrefix(s: seq<Activity>, n: nat)
    ensures Received(s, n) == s[..ProjectActivity.Min(n * ProjectActivity.PER_PAGE, |s|)]
    ensures n >= 1 && !ProjectActivity.Paginate(s, n).hasNext ==> Received(s, n) == s
  {
    ReceivedIsPages(s, n);
    ProjectActivity.PagesConcatenate(s, n);
    if n >= 1 && !ProjectActivity.Paginate(s, n).hasNext {
      ProjectActivity.PagesCoverList(s, n);
    }
  }

  lemma {:induction false} ReceivedIsPages(s: seq<Activity>, n: nat)
    ensures Received(s, n) == ProjectActivity.Pages(s, n)
  {
    if n > 0 {
      ReceivedIsPages(s, n - 1);
      if n == 1 {
        assert ProjectActivity.Pages(s, 1) == [] + ProjectActivity.PageSlice(s, 1);
      }
    }
  }
}
