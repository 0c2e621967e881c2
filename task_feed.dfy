/**
 * `getTaskActivities`: one chronological feed for a task, merged from its
 * comments, its audit rows other than `comment`, and its attachments, each
 * rendered as a typed item with a prefixed id and a content string.
 */
module TaskFeed {
  import opened Common
  import opened Text
  import opened Schema
  import Sorting
  import TaskService

  /** The `type` of a feed item. */
  datatype FeedKind = CommentItem | ActivityItem | FileItem

  function KindText(k: FeedKind): string {
    match k
    case CommentItem => "comment"
    case ActivityItem => "activity"
    case FileItem => "file"
  }

  /** The kind-specific part of an item: the raw audit values, or the file's link and name. */
  datatype FeedExtra =
    | NoExtra
    | ChangeMeta(oldValue: Json, newValue: Json)
    | FileLink(fileUrl: string, fileName: string)

  datatype FeedItem = FeedItem(
    id: string,
    kind: FeedKind,
    userId: Option<Id>,
    content: string,
    createdAt: Timestamp,
    extra: FeedExtra)

  function ItemTime(item: FeedItem): Timestamp {
    item.createdAt
  }

  // ---------------------------------------------------------------------------
  // Rendering values
  // ---------------------------------------------------------------------------

  /** `json_encode` of a string: quoted, with `"`, `\` and `/` escaped. */
  function JsonQuote(s: string): string {
    "\"" + JsonEscape(s) + "\""
  }

  function JsonEscape(s: string): string {
    if s == [] then []
    else
      (if s[0] == '"' then "\\\"" else if s[0] == '\\' then "\\\\" else if s[0] == '/' then "\\/" else [s[0]])
      + JsonEscape(s[1..])
  }

  /**
   * A decoded value interpolated into the content string: null prints as
   * nothing, a string as itself, an integer in decimal, and an array as its
   * `json_encode`.
   */
  function ValueText(v: Json): string {
    match v
    case JNull => ""
    case JText(s) => s
    case JInt(n) => IntText(n)
    case JObject(k, x) => "{" + JsonQuote(k) + ":" + JsonQuote(x) + "}"
  }

  /** The old value, where a legacy `{"status_id": ...}` array prints as `ID: ...`. */
  function OldText(v: Json): string {
    if v.JObject? && v.key == "status_id" then "ID: " + v.value else ValueText(v)
  }

  /** The sentence an audit row is shown as; a legacy `status_changed` row reads just `Changed Status`. */
  function ActivityContent(a: Activity): (r: string)
    ensures |r| >= 8 && r[..8] == "Changed "
    ensures a.action == "status_changed" ==> r == "Changed Status"
  {
    if a.action == "status_changed" then "Changed Status"
    else "Changed " + RemoveAll(a.action, "_updated") + " from '" + OldText(a.oldValue) + "' to '" + ValueText(a.newValue) + "'"
  }

  // ---------------------------------------------------------------------------
  // The three lists
  // ---------------------------------------------------------------------------

  function CommentEntry(c: Comment): FeedItem {
    FeedItem("c_" + NatText(c.id), CommentItem, c.userId, c.content, c.createdAt, NoExtra)
  }

  /** An audit row's entry; a row without `created_at` is stamped with the request time. */
  function ActivityEntry(a: Activity, now: Timestamp): FeedItem {
    FeedItem("a_" + NatText(a.id), ActivityItem, a.userId, ActivityContent(a),
      if a.createdAt.Some? then a.createdAt.value else now, ChangeMeta(a.oldValue, a.newValue))
  }

  /** `asset('storage/' . $path)`, with the application's public root as a parameter. */
  function FileEntry(f: Attachment, assetRoot: string): FeedItem {
    FeedItem("f_" + NatText(f.id), FileItem, f.userId, "Uploaded file: " + f.fileName, f.createdAt,
      FileLink(assetRoot + "storage/" + f.filePath, f.fileName))
  }

  /** `$task->comments()->get()->map(...)`, in table order. */
  function CommentItems(comments: seq<Comment>, taskId: Id): (r: seq<FeedItem>)
    ensures forall i :: 0 <= i < |r| ==> r[i].kind == CommentItem
  {
    if comments == [] then []
    else
      (if comments[0].taskId == taskId then [CommentEntry(comments[0])] else [])
      + CommentItems(comments[1..], taskId)
  }

  /** `$task->activities()->where('action', '!=', 'comment')->get()->map(...)`. */
  function ActivityItems(activities: seq<Activity>, taskId: Id, now: Timestamp): (r: seq<FeedItem>)
    ensures forall i :: 0 <= i < |r| ==> r[i].kind == ActivityItem
  {
    if activities == [] then []
    else
      (if activities[0].taskId == taskId && activities[0].action != "comment"
       then [ActivityEntry(activities[0], now)] else [])
      + ActivityItems(activities[1..], taskId, now)
  }

  /** `$task->attachments()->get()->map(...)`: the attachments owned by the task. */
  function FileItems(attachments: seq<Attachment>, taskId: Id, assetRoot: string): (r: seq<FeedItem>)
    ensures forall i :: 0 <= i < |r| ==> r[i].kind == FileItem
  {
    if attachments == [] then []
    else
      (if attachments[0].ownerKind == TaskOwner && attachments[0].ownerId == taskId
       then [FileEntry(attachments[0], assetRoot)] else [])
      + FileItems(attachments[1..], taskId, assetRoot)
  }

  /** `$comments->concat($activities)->concat($attachments)`. */
  function Merged(comments: seq<Comment>, activities: seq<Activity>, attachments: seq<Attachment>,
                  taskId: Id, now: Timestamp, assetRoot: string): seq<FeedItem>
  {
    CommentItems(comments, taskId) + ActivityItems(activities, taskId, now) + FileItems(attachments, taskId, assetRoot)
  }

  /** `$feed->sortBy('created_at')->values()`. */
  function Feed(comments: seq<Comment>, activities: seq<Activity>, attachments: seq<Attachment>,
                taskId: Id, now: Timestamp, assetRoot: string): (r: seq<FeedItem>)
    ensures multiset(r) == multiset(Merged(comments, activities, attachments, taskId, now, assetRoot))
  {
    Sorting.SortBy(Merged(comments, activities, attachments, taskId, now, assetRoot), ItemTime, LexLe)
  }

  // ---------------------------------------------------------------------------
  // Properties
  // ---------------------------------------------------------------------------

  /** Timestamps are totally ordered by their text. */
  lemma LexLeIsTotalOrder()
    ensures Sorting.TotalOrder(LexLe)
  {
    forall a, b ensures LexLe(a, b) || LexLe(b, a) {
      LexLeTotal(a, b);
    }
    forall a, b | LexLe(a, b) && LexLe(b, a) ensures a == b {
      LexLeAntisymmetric(a, b);
    }
    forall a, b, c | LexLe(a, b) && LexLe(b, c) ensures LexLe(a, c) {
      LexLeTransitive(a, b, c);
    }
  }

  /** The feed runs from the oldest item to the newest. */
  lemma FeedSorted(comments: seq<Comment>, activities: seq<Activity>, attachments: seq<Attachment>,
                   taskId: Id, now: Timestamp, assetRoot: string)
    ensures Sorting.SortedBy(Feed(comments, activities, attachments, taskId, now, assetRoot), ItemTime, LexLe)
  {
    LexLeIsTotalOrder();
    Sorting.SortBySorted(Merged(comments, activities, attachments, taskId, now, assetRoot), ItemTime, LexLe);
  }

  /**
   * Items with the same timestamp keep the concatenation order: the comments
   * first, then the audit rows, then the files, each group in table order.
   */
  lemma FeedTiesKeepConcatOrder(comments: seq<Comment>, activities: seq<Activity>, attachments: seq<Attachment>,
                                taskId: Id, now: Timestamp, assetRoot: string, t: Timestamp)
    ensures Sorting.WithKey(Feed(comments, activities, attachments, taskId, now, assetRoot), ItemTime, t)
      == Sorting.WithKey(CommentItems(comments, taskId), ItemTime, t)
       + Sorting.WithKey(ActivityItems(activities, taskId, now), ItemTime, t)
       + Sorting.WithKey(FileItems(attachments, taskId, assetRoot), ItemTime, t)
  {
    var cs, acts, fs := CommentItems(comments, taskId), ActivityItems(activities, taskId, now), FileItems(attachments, taskId, assetRoot);
    LexLeIsTotalOrder();
    Sorting.SortByStable(cs + acts + fs, ItemTime, LexLe, t);
    Sorting.WithKeyAppend(cs + acts, fs, ItemTime, t);
    Sorting.WithKeyAppend(cs, acts, ItemTime, t);
  }

  /**
   * The activity part lists exactly the task's audit rows other than
   * `comment`, in table order, each stamped with its own time or else `now`.
   */
  lemma {:induction false} ActivityItemsSpec(activities: seq<Activity>, taskId: Id, now: Timestamp, x: FeedItem)
    ensures x in ActivityItems(activities, taskId, now) <==>
      exists b :: b in activities && b.taskId == taskId && b.action != "comment" && x == ActivityEntry(b, now)
  {
    if activities != [] {
      ActivityItemsSpec(activities[1..], taskId, now, x);
      var rest := activities[1..];
      assert forall b :: b in activities <==> b == activities[0] || b in rest;
    }
  }

  /**
   * The comment part lists exactly the task's comments, in table order, each
   * as a `c_`-prefixed item carrying the comment's author, text and time.
   */
  lemma {:induction false} CommentItemsSpec(comments: seq<Comment>, taskId: Id, x: FeedItem)
    ensures x in CommentItems(comments, taskId) <==>
      exists c :: c in comments && c.taskId == taskId &&
        x == FeedItem("c_" + NatText(c.id), CommentItem, c.userId, c.content, c.createdAt, NoExtra)
  {
    if comments != [] {
      CommentItemsSpec(comments[1..], taskId, x);
      var rest := comments[1..];
      assert forall c :: c in comments <==> c == comments[0] || c in rest;
    }
  }

  /**
   * The file part lists exactly the attachments owned by the task (not those
   * of its project or of other tasks), in table order, each as an `f_`-prefixed
   * item reading `Uploaded file: <name>` with the file's link and name.
   */
  lemma {:induction false} FileItemsSpec(attachments: seq<Attachment>, taskId: Id, assetRoot: string, x: FeedItem)
    ensures x in FileItems(attachments, taskId, assetRoot) <==>
      exists f :: f in attachments && f.ownerKind == TaskOwner && f.ownerId == taskId &&
        x == FeedItem("f_" + NatText(f.id), FileItem, f.userId, "Uploaded file: " + f.fileName, f.createdAt,
                      FileLink(assetRoot + "storage/" + f.filePath, f.fileName))
  {
    if attachments != [] {
      FileItemsSpec(attachments[1..], taskId, assetRoot, x);
      var rest := attachments[1..];
      assert forall f :: f in attachments <==> f == attachments[0] || f in rest;
    }
  }

  /** Two prefixed ids are equal only for the same prefix and the same key. */
  lemma PrefixedIdInjective(p: string, q: string, a: nat, b: nat)
    requires |p| == |q| && p + NatText(a) == q + NatText(b)
    ensures p == q && a == b
  {
    assert (p + NatText(a))[..|p|] == p && (q + NatText(b))[..|q|] == q;
    assert (p + NatText(a))[|p|..] == NatText(a) && (q + NatText(b))[|q|..] == NatText(b);
    NatTextInjective(a, b);
  }

  /** Items of different kinds never share an id, and items of one kind share an id only if their rows share a key. */
  lemma EntryIdsDistinct(c: Comment, a: Activity, f: Attachment, now: Timestamp, assetRoot: string)
    ensures CommentEntry(c).id != ActivityEntry(a, now).id
    ensures CommentEntry(c).id != FileEntry(f, assetRoot).id
    ensures ActivityEntry(a, now).id != FileEntry(f, assetRoot).id
  {
    assert CommentEntry(c).id[0] == 'c' && ActivityEntry(a, now).id[0] == 'a' && FileEntry(f, assetRoot).id[0] == 'f';
  }

  lemma ActivityIdsDistinct(a: Activity, b: Activity, now: Timestamp)
    requires a.id != b.id
    ensures ActivityEntry(a, now).id != ActivityEntry(b, now).id
  {
    if ActivityEntry(a, now).id == ActivityEntry(b, now).id {
      PrefixedIdInjective("a_", "a_", a.id, b.id);
    }
  }

  /** No tracked field's label contains an underscore. */
  lemma LabelHasNoUnderscore(f: TaskService.Tracked)
    ensures forall i :: 0 <= i < |TaskService.Label(f)| ==> TaskService.Label(f)[i] != '_'
  {
  }

  /**
   * The row `updateTask` writes for a changed field is shown as
   * "Changed <label> from '<old>' to '<new>'": removing `_updated` from the
   * action gives back the label.
   */
  lemma UpdateRowContent(a: Activity, f: TaskService.Tracked, oldText: string, newText: string)
    requires a.action == TaskService.Label(f) + "_updated"
    requires a.oldValue == JText(oldText) && a.newValue == JText(newText)
    ensures ActivityContent(a) ==
      "Changed " + TaskService.Label(f) + " from '" + oldText + "' to '" + newText + "'"
  {
    LabelHasNoUnderscore(f);
    RemoveAllSuffix(TaskService.Label(f), "_updated");
    assert a.action != "status_changed" by {
      assert |a.action| != |"status_changed"| || a.action[0] != 's';
    }
  }
}
