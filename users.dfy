/**
 * The `users` table row (app/database/models/users.py) and the clock.
 *
 * Relationship lists that only some modules need (project offices, event
 * types led) are passed to those modules separately; `roles` holds the
 * names of the user's roles, role names being unique (roles.py).
 */
module Users {
  import opened Wrappers

  /** A point in time, in seconds since the epoch (UTC). */
  type Time = int

  const SecondsPerHour: int := 3600
  const SecondsPerDay: int := 86400

  /** datetime.date(): the calendar day a time falls on. */
  function DateOf(t: Time): int {
    t / SecondsPerDay
  }

  datatype User = User(
    id: int,
    externalId: string,
    email: string,
    passwordHash: Option<string>,
    isActive: bool,
    isVerified: bool,
    requiresPassword: bool,
    verificationToken: Option<string>,
    verificationSentAt: Option<Time>,
    lastLoginAt: Option<Time>,
    emailVerifiedAt: Option<Time>,
    createdAt: Option<Time>,
    updatedAt: Option<Time>,
    displayName: Option<string>,
    image: Option<string>,
    roles: seq<string>,
    archived: bool,
    groupName: Option<string>,
    groupsLeader: Option<seq<string>>
  )

  predicate HasRole(u: User, roleName: string) {
    roleName in u.roles
  }
}
