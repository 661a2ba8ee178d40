/**
 * The staff-specific hooks of the roster synchronisation
 * (app/services/sync_service/teacher_sync_service.py): the feed's e-mail is
 * always written back, a teacher without one cannot be imported, and the
 * photo and the classes a teacher leads follow the feed.
 */
module TeacherSync {
  import opened Wrappers
  import opened Text
  import opened Users
  import opened SyncSchemas

  const TeacherRole: string := "teacher"
  const MissingEmail: string := "У учителя отсутствует email"

  /** _should_update_email: a teacher's e-mail is always rewritten from the feed. */
  function ShouldUpdateEmail(u: User, t: TeacherItem): (r: bool)
    ensures r
  {
    true
  }

  /** _get_item_email: the feed's e-mail, or an error when it is missing or empty. */
  function ItemEmail(t: TeacherItem): (r: Result<string, string>)
    ensures r.Success? <==> Truthy(t.email)
    ensures r.Success? ==> Some(r.value) == t.email && r.value != []
    ensures r.Failure? ==> r.error == MissingEmail
  {
    if !Truthy(t.email) then Failure(MissingEmail) else Success(t.email.value)
  }

  /** _update_specific_fields: photo and led classes become the feed's, changed when they differed. */
  function UpdateSpecific(u: User, t: TeacherItem): (r: (User, bool))
    ensures r.0 == u.(image := t.image, groupsLeader := t.leaderGroups)
    ensures r.1 <==> r.0 != u
  {
    var (u1, c1) := if t.image != u.image then (u.(image := t.image), true) else (u, false);
    var (u2, c2) := if t.leaderGroups != u1.groupsLeader then (u1.(groupsLeader := t.leaderGroups), true) else (u1, false);
    (u2, c1 || c2)
  }

  /** _get_specific_fields: a new teacher gets the feed's photo and led classes. */
  function SpecificFields(u: User, t: TeacherItem): (r: User)
    ensures r == u.(image := r.image, groupsLeader := r.groupsLeader)
    ensures r.image == t.image && r.groupsLeader == t.leaderGroups
  {
    u.(image := t.image, groupsLeader := t.leaderGroups)
  }
}
