/**
 * The project activity listing: the audit rows of the project's tasks, newest
 * first, served 50 to a page with Laravel's length-aware paginator.
 */
module ProjectActivity {
  import opened Common
  import opened Text
  import opened Schema
  import Sorting

  /** `whereHas('task', ... where('project_id', $project->id))`: the row's task exists and is in the project. */
  predicate OfProject(tasks: seq<Task>, a: Activity, projectId: Id) {
    exists t :: t in tasks && t.id == a.taskId && t.projectId == projectId
  }

  function ProjectActivities(activities: seq<Activity>, tasks: seq<Task>, projectId: Id): (r: seq<Activity>)
    ensures forall a :: a in r <==> a in activities && OfProject(tasks, a, projectId)
  {
    if activities == [] then []
    else
      (if OfProject(tasks, activities[0], projectId) then [activities[0]] else [])
      + ProjectActivities(activities[1..], tasks, projectId)
  }

  function CreatedAt(a: Activity): Option<Timestamp> {
    a.createdAt
  }

  /**
   * `orderBy('created_at', 'desc')`: the later time first. A null time is the
   * smallest value to the database, so rows without one come last.
   */
  predicate NewerOrSame(x: Option<Timestamp>, y: Option<Timestamp>) {
    match (x, y)
    case (_, None) => true
    case (None, Some(_)) => false
    case (Some(a), Some(b)) => LexLe(b, a)
  }

  lemma NewerOrSameIsTotalOrder()
    ensures Sorting.TotalOrder(NewerOrSame)
  {
    forall x, y ensures NewerOrSame(x, y) || NewerOrSame(y, x) {
      if x.Some? && y.Some? {
        LexLeTotal(x.value, y.value);
      }
    }
    forall x, y | NewerOrSame(x, y) && NewerOrSame(y, x) ensures x == y {
      if x.Some? && y.Some? {
        LexLeAntisymmetric(x.value, y.value);
      }
    }
    forall x, y, z | NewerOrSame(x, y) && NewerOrSame(y, z) ensures NewerOrSame(x, z) {
      if x.Some? && y.Some? && z.Some? {
        LexLeTransitive(z.value, y.value, x.value);
      }
    }
  }

  /** The project's audit rows, newest first. */
  function Listing(activities: seq<Activity>, tasks: seq<Task>, projectId: Id): (r: seq<Activity>)
    ensures multiset(r) == multiset(ProjectActivities(activities, tasks, projectId))
  {
    Sorting.SortBy(ProjectActivities(activities, tasks, projectId), CreatedAt, NewerOrSame)
  }

  /** A row is kept as often as the table holds it when its task is in the project, and never otherwise. */
  lemma {:induction false} ProjectActivitiesCount(activities: seq<Activity>, tasks: seq<Task>, projectId: Id, a: Activity)
    ensures multiset(ProjectActivities(activities, tasks, projectId))[a]
      == if OfProject(tasks, a, projectId) then multiset(activities)[a] else 0
  {
    if activities != [] {
      ProjectActivitiesCount(activities[1..], tasks, projectId, a);
      assert activities == [activities[0]] + activities[1..];
    }
  }

  /** The listing holds exactly the project's rows, each as often as the table does, newest first. */
  lemma ListingSpec(activities: seq<Activity>, tasks: seq<Task>, projectId: Id, a: Activity)
    ensures a in Listing(activities, tasks, projectId) <==> a in activities && OfProject(tasks, a, projectId)
    ensures multiset(Listing(activities, tasks, projectId))[a]
      == if OfProject(tasks, a, projectId) then multiset(activities)[a] else 0
    ensures Sorting.SortedBy(Listing(activities, tasks, projectId), CreatedAt, NewerOrSame)
  {
    var own := ProjectActivities(activities, tasks, projectId);
    ProjectActivitiesCount(activities, tasks, projectId, a);
    assert a in Listing(activities, tasks, projectId) <==> a in multiset(own);
    NewerOrSameIsTotalOrder();
    Sorting.SortBySorted(own, CreatedAt, NewerOrSame);
  }

  // ---------------------------------------------------------------------------
  // paginate(50)
  // ---------------------------------------------------------------------------

  const PER_PAGE: nat := 50

  /** What the paginator returns: one page of rows, its number, the last page number, and whether `next_page_url` is set. */
  datatype Page<T> = Page(data: seq<T>, currentPage: nat, lastPage: nat, hasNext: bool)

  /** The `page` query value; anything below 1 reads as page 1. */
  function ResolvePage(requested: int): (r: nat)
    ensures r >= 1
  {
    if requested >= 1 then requested else 1
  }

  function Min(a: int, b: int): int {
    if a <= b then a else b
  }

  /** The rows of page `page`: positions `[50(page-1), 50 page)`, cut at the end of the list. */
  function PageSlice<T>(s: seq<T>, page: nat): (r: seq<T>)
    requires page >= 1
    ensures |r| <= PER_PAGE
    ensures |r| == if (page - 1) * PER_PAGE >= |s| then 0 else Min(PER_PAGE, |s| - (page - 1) * PER_PAGE)
    ensures forall i :: 0 <= i < |r| ==> (page - 1) * PER_PAGE + i < |s| && r[i] == s[(page - 1) * PER_PAGE + i]
  {
    var lo := (page - 1) * PER_PAGE;
    if lo >= |s| then [] else s[lo..Min(lo + PER_PAGE, |s|)]
  }

  /** `max(ceil(total / 50), 1)`. */
  function LastPage(total: nat): nat {
    if total == 0 then 1 else (total + PER_PAGE - 1) / PER_PAGE
  }

  /** There is a next page exactly when rows remain after this one. */
  lemma LastPageAfter(total: nat, page: nat)
    requires page >= 1
    ensures LastPage(total) > page <==> page * PER_PAGE < total
  {
    if total > 0 {
      var q := (total + PER_PAGE - 1) / PER_PAGE;
      assert q * PER_PAGE <= total + PER_PAGE - 1 < (q + 1) * PER_PAGE;
      if q > page {
        assert page * PER_PAGE <= (q - 1) * PER_PAGE;
      } else {
        assert page * PER_PAGE >= q * PER_PAGE;
      }
    }
  }

  function Paginate<T>(s: seq<T>, requested: int): (r: Page<T>)
    ensures r.currentPage >= 1 && |r.data| <= PER_PAGE
    ensures r.hasNext <==> r.currentPage * PER_PAGE < |s|
  {
    var page := ResolvePage(requested);
    LastPageAfter(|s|, page);
    Page(PageSlice(s, page), page, LastPage(|s|), LastPage(|s|) > page)
  }

  /** Pages `1..n` in order: what a client that fetched them one after another holds. */
  function Pages<T>(s: seq<T>, n: nat): seq<T> {
    if n == 0 then [] else Pages(s, n - 1) + PageSlice(s, n)
  }

  /** Taken in order, the pages reproduce the list: the first `n` pages are its first `50 n` rows. */
  lemma {:induction false} PagesConcatenate<T>(s: seq<T>, n: nat)
    ensures Pages(s, n) == s[..Min(n * PER_PAGE, |s|)]
  {
    if n > 0 {
      PagesConcatenate(s, n - 1);
      var lo := (n - 1) * PER_PAGE;
      assert n * PER_PAGE == lo + PER_PAGE;
      if lo >= |s| {
        assert Min(n * PER_PAGE, |s|) == |s| == Min(lo, |s|);
      } else {
        assert s[..Min(n * PER_PAGE, |s|)] == s[..lo] + s[lo..Min(lo + PER_PAGE, |s|)];
      }
    }
  }

  /** Once a page has no successor, the pages fetched so far are the whole list. */
  lemma PagesCoverList<T>(s: seq<T>, n: nat)
    requires n >= 1 && !Paginate(s, n).hasNext
    ensures Pages(s, n) == s
  {
    PagesConcatenate(s, n);
    assert s[..|s|] == s;
  }

  /**
   * `index`: the requested page (page 1 for a missing or non-positive number)
   * of the project's audit rows: at most 50 of them, each a row of a task of
   * the project, and a next page exactly when the listing goes on.
   */
  function Index(activities: seq<Activity>, tasks: seq<Task>, projectId: Id, requested: int): (r: Page<Activity>)
    ensures r.currentPage == (if requested >= 1 then requested else 1)
    ensures |r.data| <= PER_PAGE
    ensures forall a :: a in r.data ==> a in activities && OfProject(tasks, a, projectId)
    ensures r.hasNext <==> r.currentPage * PER_PAGE < |ProjectActivities(activities, tasks, projectId)|
  {
    var listing := Listing(activities, tasks, projectId);
    var r := Paginate(listing, requested);
    assert |listing| == |multiset(listing)| == |ProjectActivities(activities, tasks, projectId)|;
    forall a | a in r.data ensures a in activities && OfProject(tasks, a, projectId) {
      var i :| 0 <= i < |r.data| && r.data[i] == a;
      assert a in listing;
      ListingSpec(activities, tasks, projectId, a);
    }
    r
  }
}
