/**
 * The project files view: the attachments owned by the project itself and
 * those owned by any of its tasks, newest first.
 */
module ProjectAttachments {
  import opened Common
  import opened Text
  import opened Schema
  import Sorting

  /** `$project->tasks()->pluck('id')`. */
  function TaskIds(tasks: seq<Task>, projectId: Id): (r: seq<Id>)
    ensures forall id :: id in r <==> exists t :: t in tasks && t.id == id && t.projectId == projectId
  {
    if tasks == [] then []
    else (if tasks[0].projectId == projectId then [tasks[0].id] else []) + TaskIds(tasks[1..], projectId)
  }

  /** The `where(...)->orWhere(...)` condition. */
  predicate Listed(a: Attachment, projectId: Id, taskIds: seq<Id>) {
    || (a.ownerKind == ProjectOwner && a.ownerId == projectId)
    || (a.ownerKind == TaskOwner && a.ownerId in taskIds)
  }

  /** The rows the condition keeps, in table order. */
  function Matching(attachments: seq<Attachment>, projectId: Id, taskIds: seq<Id>): seq<Attachment> {
    if attachments == [] then []
    else
      (if Listed(attachments[0], projectId, taskIds) then [attachments[0]] else [])
      + Matching(attachments[1..], projectId, taskIds)
  }

  /** A row is kept as often as the table holds it when it meets the condition, and never otherwise. */
  lemma {:induction false} MatchingCount(attachments: seq<Attachment>, projectId: Id, taskIds: seq<Id>, a: Attachment)
    ensures multiset(Matching(attachments, projectId, taskIds))[a]
      == if Listed(a, projectId, taskIds) then multiset(attachments)[a] else 0
  {
    if attachments != [] {
      MatchingCount(attachments[1..], projectId, taskIds, a);
      assert attachments == [attachments[0]] + attachments[1..];
    }
  }

  function CreatedAt(a: Attachment): Timestamp {
    a.createdAt
  }

  /** `latest()`: the later upload first. */
  predicate NewerOrSame(x: Timestamp, y: Timestamp) {
    LexLe(y, x)
  }

  lemma NewerOrSameIsTotalOrder()
    ensures Sorting.TotalOrder(NewerOrSame)
  {
    forall x, y ensures NewerOrSame(x, y) || NewerOrSame(y, x) {
      LexLeTotal(x, y);
    }
    forall x, y | NewerOrSame(x, y) && NewerOrSame(y, x) ensures x == y {
      LexLeAntisymmetric(x, y);
    }
    forall x, y, z | NewerOrSame(x, y) && NewerOrSame(y, z) ensures NewerOrSame(x, z) {
      LexLeTransitive(z, y, x);
    }
  }

  /** `index`. */
  function Index(attachments: seq<Attachment>, tasks: seq<Task>, projectId: Id): (r: seq<Attachment>)
    ensures multiset(r) == multiset(Matching(attachments, projectId, TaskIds(tasks, projectId)))
  {
    Sorting.SortBy(Matching(attachments, projectId, TaskIds(tasks, projectId)), CreatedAt, NewerOrSame)
  }

  /** A task-owned attachment whose task is in the project. */
  predicate OfProjectTask(a: Attachment, tasks: seq<Task>, projectId: Id) {
    a.ownerKind == TaskOwner && exists t :: t in tasks && t.id == a.ownerId && t.projectId == projectId
  }

  /**
   * The view lists each attachment of the project and of the project's tasks
   * exactly as often as the table holds it (so a stored row at most once),
   * nothing of other projects or their tasks, and runs from newest to oldest.
   */
  lemma IndexSpec(attachments: seq<Attachment>, tasks: seq<Task>, projectId: Id, a: Attachment)
    ensures multiset(Index(attachments, tasks, projectId))[a] ==
      if (a.ownerKind == ProjectOwner && a.ownerId == projectId) || OfProjectTask(a, tasks, projectId)
      then multiset(attachments)[a] else 0
    ensures Sorting.SortedBy(Index(attachments, tasks, projectId), CreatedAt, NewerOrSame)
  {
    var ids := TaskIds(tasks, projectId);
    MatchingCount(attachments, projectId, ids, a);
    NewerOrSameIsTotalOrder();
    Sorting.SortBySorted(Matching(attachments, projectId, ids), CreatedAt, NewerOrSame);
  }
}
