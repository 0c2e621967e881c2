/** The seeder that gives a new project its four default task statuses. */
module DefaultTaskStatusSeeder {
  import opened Common
  import opened Schema

  /** One entry of the seeder's constant table. */
  datatype StatusTemplate = StatusTemplate(
    name: string,
    color: string,
    position: int,
    isDefault: bool,
    isCompleted: bool)

  /** The default statuses, in insertion order. */
  const DEFAULTS: seq<StatusTemplate> := [
    StatusTemplate("To Do", "#64748b", 0, true, false),
    StatusTemplate("In Progress", "#3b82f6", 1, false, false),
    StatusTemplate("In Review", "#8b5cf6", 2, false, false),
    StatusTemplate("Completed", "#10b981", 3, false, true)
  ]

  /** The row `TaskStatus::create(array_merge($status, ['project_id' => ...]))` inserts. */
  function StatusRow(t: StatusTemplate, projectId: Id, id: Id): TaskStatus {
    TaskStatus(id, projectId, t.name, t.color, t.position, t.isDefault, t.isCompleted)
  }

  /** The rows the seeder inserts for a project, keys handed out from `firstId` on. */
  function SeededRows(projectId: Id, firstId: Id): seq<TaskStatus> {
    seq(|DEFAULTS|, i requires 0 <= i < |DEFAULTS| => StatusRow(DEFAULTS[i], projectId, firstId + i))
  }

  /** PHP's `!$projectId`: null and 0 are falsy. */
  predicate IsFalsy(projectId: Option<nat>) {
    projectId.None? || projectId.value == 0
  }

  function CountDefault(s: seq<TaskStatus>): nat {
    if s == [] then 0 else (if s[0].isDefault then 1 else 0) + CountDefault(s[1..])
  }

  function CountCompleted(s: seq<TaskStatus>): nat {
    if s == [] then 0 else (if s[0].isCompleted then 1 else 0) + CountCompleted(s[1..])
  }

  /**
   * The seeded statuses: four of them, To Do, In Progress, In Review and
   * Completed in that order, at positions 0..3, all in the given project, with
   * exactly one default (To Do) and exactly one completed (Completed).
   */
  lemma SeededRowsShape(projectId: Id, firstId: Id)
    ensures var rows := SeededRows(projectId, firstId);
      && |rows| == 4
      && rows[0].name == "To Do" && rows[1].name == "In Progress"
      && rows[2].name == "In Review" && rows[3].name == "Completed"
      && (forall i :: 0 <= i < 4 ==> rows[i].position == i && rows[i].projectId == projectId)
      && CountDefault(rows) == 1 && rows[0].isDefault
      && CountCompleted(rows) == 1 && rows[3].isCompleted
  {
    var rows := SeededRows(projectId, firstId);
    assert rows[0] == StatusRow(DEFAULTS[0], projectId, firstId);
    assert rows[1] == StatusRow(DEFAULTS[1], projectId, firstId + 1);
    assert rows[2] == StatusRow(DEFAULTS[2], projectId, firstId + 2);
    assert rows[3] == StatusRow(DEFAULTS[3], projectId, firstId + 3);
    var r1, r2, r3 := rows[1..], rows[2..], rows[3..];
    assert r1[1..] == r2 && r2[1..] == r3 && r3[1..] == [];
    assert r3[0] == rows[3] && CountDefault(r3[1..]) == 0 && CountCompleted(r3[1..]) == 0;
    assert CountDefault(r3) == 0 && CountCompleted(r3) == 1;
    assert CountDefault(r2) == 0 && CountCompleted(r2) == 1;
    assert CountDefault(r1) == 0 && CountCompleted(r1) == 1;
  }

  /** `DefaultTaskStatusSeeder::run($projectId)`. */
  method Run(db: Database, projectId: Option<nat>)
    requires db.Valid()
    modifies db`statuses, db`serial
    ensures db.Valid()
    ensures IsFalsy(projectId) ==> db.statuses == old(db.statuses) && db.serial == old(db.serial)
    ensures !IsFalsy(projectId) ==>
      && db.statuses == old(db.statuses) + SeededRows(projectId.value, old(db.serial))
      && db.serial == old(db.serial) + |DEFAULTS|
  {
    if projectId.None? || projectId.value == 0 {
      return;
    }
    var pid: Id := projectId.value;
    var i := 0;
    while i < |DEFAULTS|
      invariant 0 <= i <= |DEFAULTS|
      invariant db.statuses == old(db.statuses) + SeededRows(pid, old(db.serial))[..i]
      invariant db.serial == old(db.serial) + i
      invariant db.Valid()
    {
      db.statuses := db.statuses + [StatusRow(DEFAULTS[i], pid, db.serial)];
      db.serial := db.serial + 1;
      i := i + 1;
    }
  }
}
