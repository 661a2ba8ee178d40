/**
 * The main data of the signed-in user (app/routes/user.py): the profile
 * fields, the role names and the flags the front end uses to show the
 * project-office, event-type, class-teacher and admin sections.
 *
 * The user's project offices and led event types are relationship lists,
 * passed in as the ids of their rows; the guard in front of the route is
 * Dependencies.CurrentActiveUser.
 */
module UserFlags {
  import opened Wrappers
  import opened Users
  import opened Groups

  const AdminRole: string := "admin"

  datatype MainData = MainData(
    id: int,
    displayName: Option<string>,
    email: string,
    image: Option<string>,
    roles: seq<string>,
    hasPOffice: bool,
    hasEventTypes: bool,
    hasGroupsLeader: bool,
    hasAdmin: bool
  )

  /** The loop over all groups: some stored group's name is listed. */
  method LeadsSomeGroup(groups: seq<Group>, names: seq<string>) returns (has: bool)
    ensures has <==> exists g :: g in groups && g.name in names
  {
    has := false;
    var i := 0;
    while i < |groups|
      invariant 0 <= i <= |groups|
      invariant has <==> exists k :: 0 <= k < i && groups[k].name in names
    {
      if groups[i].name in names {
        has := true;
      }
      i := i + 1;
    }
  }

  /** get_user_main_data; a null `groups_leader` counts as an empty list. */
  method MainDataOf(u: User, pOffice: seq<int>, eventTypes: seq<int>, groups: seq<Group>) returns (d: MainData)
    ensures d.id == u.id && d.displayName == u.displayName && d.email == u.email && d.image == u.image
    ensures d.roles == u.roles
    ensures d.hasPOffice <==> pOffice != []
    ensures d.hasEventTypes <==> eventTypes != []
    ensures d.hasGroupsLeader <==> u.groupsLeader.Some? && exists g :: g in groups && g.name in u.groupsLeader.value
    ensures d.hasAdmin <==> HasRole(u, AdminRole)
  {
    var names := if u.groupsLeader.Some? then u.groupsLeader.value else [];
    var hasGroups := LeadsSomeGroup(groups, names);
    d := MainData(u.id, u.displayName, u.email, u.image, u.roles,
                  |pOffice| > 0, |eventTypes| > 0, hasGroups, AdminRole in u.roles);
  }

  /** The class-teacher flag is set exactly when the class teacher's list of classes is not empty. */
  lemma FlagMatchesList(groups: seq<Group>, names: seq<string>)
    ensures (exists g :: g in groups && g.name in names) <==> Led(groups, names) != []
  {
    if Led(groups, names) != [] {
      assert Led(groups, names)[0] in Led(groups, names);
    }
  }
}
