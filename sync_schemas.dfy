/**
 * The records exchanged by the roster synchronisation
 * (app/services/sync_service/schemas/sync_schemas.py).
 */
module SyncSchemas {
  import opened Wrappers

  /** One staff member from the school's HTTP feed. */
  datatype TeacherItem = TeacherItem(
    uid: string,
    displayName: string,
    image: Option<string>,
    leaderGroups: Option<seq<string>>,
    email: Option<string>
  )

  /** One pupil from the legacy school database. */
  datatype StudentItem = StudentItem(
    uid: string,
    displayName: string,
    email: Option<string>,
    groupName: Option<string>,
    firstName: Option<string>,
    lastName: Option<string>,
    patronymic: Option<string>
  )

  /** The generic item type T of the base service; each subclass syncs one kind. */
  datatype Item = Teacher(t: TeacherItem) | Student(s: StudentItem) {
    function Uid(): string {
      match this
      case Teacher(t) => t.uid
      case Student(s) => s.uid
    }

    function DisplayName(): string {
      match this
      case Teacher(t) => t.displayName
      case Student(s) => s.displayName
    }
  }

  /** The counters and error messages a run reports. */
  datatype SyncStats = SyncStats(
    added: nat,
    updated: nat,
    archived: nat,
    errors: seq<string>,
    totalExternal: nat
  )
}
