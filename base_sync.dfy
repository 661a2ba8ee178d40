/**
 * The generic roster synchronisation (app/services/sync_service/base_sync_service.py).
 *
 * The local `users` table is a map from external id to row (external_id is
 * unique); the `roles` table is the set of role names present. Each feed
 * item is processed on its own: an existing row is updated, a missing one
 * is inserted, and an item whose processing raises adds one error message
 * and leaves the table as it was. Afterwards every active holder of the
 * service's role whose external id did not appear in the feed is archived.
 * One clock reading `now` stands for every datetime.now() of a run.
 */
module BaseSync {
  import opened Wrappers
  import opened Text
  import opened Users
  import opened SyncSchemas
  import opened ExternalFeed
  import StudentSync
  import TeacherSync

  const MissingEmail: string := "Отсутствует email"

  function RoleMissing(roleName: string): string {
    "Роль '" + roleName + "' не найдена"
  }

  /** The message one failed item adds: "<display name>: <error>". */
  function ItemError(item: Item, message: string): string {
    item.DisplayName() + ": " + message
  }

  // ---------------------------------------------------------------------
  // The hooks, dispatched on the kind of item

  function ShouldUpdateEmail(u: User, item: Item): bool {
    match item
    case Student(s) => StudentSync.ShouldUpdateEmail(u, s)
    case Teacher(t) => TeacherSync.ShouldUpdateEmail(u, t)
  }

  function ItemEmail(item: Item): (r: Result<string, string>)
    ensures r.Failure? <==> item.Teacher? && !Truthy(item.t.email)
    ensures r.Success? ==> r.value != []
  {
    match item
    case Student(s) => Success(StudentSync.ExternalEmail(s))
    case Teacher(t) => TeacherSync.ItemEmail(t)
  }

  function UpdateSpecific(u: User, item: Item): (User, bool) {
    match item
    case Student(s) => StudentSync.UpdateSpecific(u, s)
    case Teacher(t) => TeacherSync.UpdateSpecific(u, t)
  }

  // ---------------------------------------------------------------------
  // One item

  /** One step of _update_item: the user after it and whether the step counts as a change. */
  function SetEmail(u: User, item: Item): (r: (User, bool))
    requires ItemEmail(item).Success?
    ensures r.0 == u.(email := r.0.email)
    ensures ShouldUpdateEmail(u, item) ==> r == (u.(email := ItemEmail(item).value), true)
    ensures !ShouldUpdateEmail(u, item) ==> r == (u, false)
  {
    if ShouldUpdateEmail(u, item) then (u.(email := ItemEmail(item).value), true) else (u, false)
  }

  function SetDisplayName(u: User, item: Item): (r: (User, bool))
    ensures r.0 == u.(displayName := r.0.displayName)
    ensures r.1 <==> r.0 != u
    ensures item.DisplayName() != [] ==> r.0.displayName == Some(item.DisplayName())
    ensures item.DisplayName() == [] ==> r.0 == u
  {
    if item.DisplayName() != [] && u.displayName != Some(item.DisplayName())
    then (u.(displayName := Some(item.DisplayName())), true)
    else (u, false)
  }

  function GrantRole(u: User, roleName: string): (r: (User, bool))
    ensures r.0 == u.(roles := r.0.roles) && HasRole(r.0, roleName)
    ensures r.1 <==> r.0 != u
    ensures forall n :: HasRole(u, n) ==> HasRole(r.0, n)
  {
    if roleName !in u.roles then (u.(roles := u.roles + [roleName]), true) else (u, false)
  }

  function Restore(u: User): (r: (User, bool))
    ensures r.0 == u.(archived := false)
    ensures r.1 <==> r.0 != u
  {
    if u.archived then (u.(archived := false), true) else (u, false)
  }

  /**
   * _update_item: refresh e-mail, display name and the kind's own fields,
   * grant the role, bring the row back from the archive, and stamp
   * updated_at when anything changed. Fails (before touching the row) when
   * the e-mail is due for rewriting and cannot be read.
   */
  function UpdateItem(u: User, item: Item, roleName: string, now: Time): (r: Result<(User, bool), string>)
    ensures r.Failure? <==> item.Teacher? && !Truthy(item.t.email)
    ensures r.Success? ==>
      var v := r.value.0;
      && HasRole(v, roleName) && !v.archived
      && v.id == u.id && v.externalId == u.externalId
      && (r.value.1 ==> v.updatedAt == Some(now))
      && (!r.value.1 ==> v == u)
  {
    var email := ItemEmail(item);
    if ShouldUpdateEmail(u, item) && email.Failure? then Failure(email.error)
    else
      var (u1, c1) := SetEmail(u, item);
      var (u2, c2) := SetDisplayName(u1, item);
      var (u3, c3) := UpdateSpecific(u2, item);
      var (u4, c4) := GrantRole(u3, roleName);
      var (u5, c5) := Restore(u4);
      var changed := c1 || c2 || c3 || c4 || c5;
      Success((if changed then u5.(updatedAt := Some(now)) else u5, changed))
  }

  /**
   * What an update writes: the e-mail, display name, role list, archive flag,
   * updated_at and the kind's own columns, and nothing else (password hash,
   * activation and verification state, login and creation times stay). The
   * role list only ever gains the role; a pupil's class is the feed's when
   * the feed has one, and a teacher's photo and led classes become the
   * feed's while the class column stays.
   */
  lemma UpdateKeeps(u: User, item: Item, roleName: string, now: Time)
    requires UpdateItem(u, item, roleName, now).Success?
    ensures var v := UpdateItem(u, item, roleName, now).value.0;
      && v == u.(email := v.email, displayName := v.displayName, roles := v.roles, archived := v.archived,
                 updatedAt := v.updatedAt, groupName := v.groupName, image := v.image, groupsLeader := v.groupsLeader)
      && (v.roles == u.roles || v.roles == u.roles + [roleName])
    ensures item.Student? ==>
      var v := UpdateItem(u, item, roleName, now).value.0;
      && v.image == u.image && v.groupsLeader == u.groupsLeader
      && v.groupName == (if Truthy(item.s.groupName) then item.s.groupName else u.groupName)
    ensures item.Teacher? ==>
      var v := UpdateItem(u, item, roleName, now).value.0;
      v.image == item.t.image && v.groupsLeader == item.t.leaderGroups && v.groupName == u.groupName
  {
  }

  /**
   * A pupil's update counts as a change exactly when the row differs
   * afterwards (updated_at aside); a teacher's always counts, since the
   * e-mail is rewritten unconditionally.
   */
  lemma UpdateChangedWhenDiffers(u: User, item: Item, roleName: string, now: Time)
    requires UpdateItem(u, item, roleName, now).Success?
    ensures var (v, changed) := UpdateItem(u, item, roleName, now).value;
      && (item.Student? ==> (changed <==> v.(updatedAt := u.updatedAt) != u))
      && (item.Teacher? ==> changed)
  {
    var (v, changed) := UpdateItem(u, item, roleName, now).value;
    var (u1, c1) := SetEmail(u, item);
    var (u2, c2) := SetDisplayName(u1, item);
    var (u3, c3) := UpdateSpecific(u2, item);
    var (u4, c4) := GrantRole(u3, roleName);
    var (u5, c5) := Restore(u4);
    if item.Student? {
      assert c1 <==> u1.email != u.email;
      if changed {
        assert v.(updatedAt := u.updatedAt) == u5;
        if c1 { assert u5.email != u.email; }
        else if c2 { assert u5.displayName != u.displayName; }
        else if c3 { assert u5.groupName != u.groupName; }
        else if c4 { assert u5.roles != u.roles; }
        else { assert u5.archived != u.archived; }
      }
    }
  }

  /** After an update the row carries the item's e-mail and, when the item has one, its display name. */
  lemma UpdateCopiesItem(u: User, item: Item, roleName: string, now: Time)
    requires UpdateItem(u, item, roleName, now).Success?
    ensures var v := UpdateItem(u, item, roleName, now).value.0;
      && v.email == ItemEmail(item).value
      && (item.DisplayName() != [] ==> v.displayName == Some(item.DisplayName()))
      && (item.DisplayName() == [] ==> v.displayName == u.displayName)
  {
    var (u1, c1) := SetEmail(u, item);
    if item.Student? {
      assert c1 || u1.email == StudentSync.ExternalEmail(item.s);
    }
  }

  /** Updating a pupil a second time with the same feed record changes nothing. */
  lemma StudentUpdateIdempotent(u: User, s: StudentItem, roleName: string, now: Time, later: Time)
    ensures UpdateItem(u, Student(s), roleName, now).Success?
    ensures var v := UpdateItem(u, Student(s), roleName, now).value.0;
            UpdateItem(v, Student(s), roleName, later) == Success((v, false))
  {
    var v := UpdateItem(u, Student(s), roleName, now).value.0;
    assert !StudentSync.ShouldUpdateEmail(v, s);
    assert StudentSync.UpdateSpecific(v, s) == (v, false);
  }

  /**
   * _add_item: a new row with the item's e-mail and display name, created
   * and updated now, not archived, holding only the role, with the column
   * defaults (inactive, unverified, password still to be set) and the kind's
   * own fields.
   */
  function NewUser(item: Item, roleName: string, now: Time, id: int, temporaryHash: string): (r: Result<User, string>)
    ensures r.Failure? <==> item.Teacher? && !Truthy(item.t.email)
    ensures r.Success? ==>
      var v := r.value;
      && v.id == id && v.externalId == item.Uid() && v.email == ItemEmail(item).value
      && v.displayName == Some(item.DisplayName())
      && v.roles == [roleName] && !v.archived
      && v.createdAt == Some(now) && v.updatedAt == Some(now)
      && !v.isActive && !v.isVerified && v.requiresPassword
      && v.verificationToken.None? && v.lastLoginAt.None?
    ensures r.Success? && item.Student? ==>
      r.value.groupName == item.s.groupName && r.value.passwordHash == Some(temporaryHash)
    ensures r.Success? && item.Teacher? ==>
      r.value.image == item.t.image && r.value.groupsLeader == item.t.leaderGroups && r.value.passwordHash.None?
  {
    match ItemEmail(item)
    case Failure(e) => Failure(e)
    case Success(email) =>
      if email == [] then Failure(MissingEmail)
      else
        var base := User(id, item.Uid(), email, None, false, false, true, None, None, None, None,
                         Some(now), Some(now), Some(item.DisplayName()), None, [], false, None, None);
        var specific := match item
          case Student(s) => StudentSync.SpecificFields(base, s, temporaryHash)
          case Teacher(t) => TeacherSync.SpecificFields(base, t);
        Success(specific.(roles := [roleName]))
  }

  // ---------------------------------------------------------------------
  // A run, as a function of the table before it

  /** The user table keyed by external id, the next primary key, and the run's counters. */
  datatype SyncState = SyncState(users: map<string, User>, nextId: int, stats: SyncStats)

  /** Every row is filed under its own external id. */
  predicate KeyedByExternalId(users: map<string, User>) {
    forall k :: k in users ==> users[k].externalId == k
  }

  /** _process_single_item */
  function Step(st: SyncState, item: Item, roleName: string, now: Time, temporaryHash: string): (r: SyncState)
    ensures r.stats.totalExternal == st.stats.totalExternal && r.stats.archived == st.stats.archived
  {
    var uid := item.Uid();
    if uid in st.users then
      match UpdateItem(st.users[uid], item, roleName, now)
      case Failure(message) => st.(stats := st.stats.(errors := st.stats.errors + [ItemError(item, message)]))
      case Success((v, changed)) =>
        st.(users := st.users[uid := v],
            stats := if changed then st.stats.(updated := st.stats.updated + 1) else st.stats)
    else
      match NewUser(item, roleName, now, st.nextId, temporaryHash)
      case Failure(message) => st.(stats := st.stats.(errors := st.stats.errors + [ItemError(item, message)]))
      case Success(v) =>
        st.(users := st.users[uid := v], nextId := st.nextId + 1,
            stats := st.stats.(added := st.stats.added + 1))
  }

  /**
   * One item: rows keep their external-id keys, at most the item's uid is
   * added, the row count grows by exactly the added counter, and at most one
   * counter moves.
   */
  lemma StepCounts(st: SyncState, item: Item, roleName: string, now: Time, temporaryHash: string)
    ensures var r := Step(st, item, roleName, now, temporaryHash);
      && (KeyedByExternalId(st.users) ==> KeyedByExternalId(r.users))
      && st.users.Keys <= r.users.Keys && r.users.Keys <= st.users.Keys + {item.Uid()}
      && r.stats.added + r.stats.updated + |r.stats.errors|
         <= st.stats.added + st.stats.updated + |st.stats.errors| + 1
      && |r.users.Keys| == |st.users.Keys| + (r.stats.added - st.stats.added)
  {
    var uid := item.Uid();
    var r := Step(st, item, roleName, now, temporaryHash);
    if uid in st.users {
      if r.users != st.users {
        var v := UpdateItem(st.users[uid], item, roleName, now).value.0;
        assert r.users == st.users[uid := v];
        assert st.users[uid := v].Keys == st.users.Keys;
      }
    } else if r.users != st.users {
      var v := NewUser(item, roleName, now, st.nextId, temporaryHash).value;
      assert r.users == st.users[uid := v];
      assert st.users[uid := v].Keys == st.users.Keys + {uid};
    }
  }

  /**
   * The three ways _process_single_item ends. An item whose e-mail cannot
   * be read adds one error naming it and changes nothing else, whether its
   * row exists or not. Otherwise an existing row is replaced by the updated
   * one, counted as updated exactly when the update reports a change, and a
   * new external id gets the new row under the next primary key and counts
   * as added.
   */
  lemma StepOutcome(st: SyncState, item: Item, roleName: string, now: Time, temporaryHash: string)
    ensures var r := Step(st, item, roleName, now, temporaryHash);
            var uid := item.Uid();
      && (ItemEmail(item).Failure? ==>
            r == st.(stats := st.stats.(errors := st.stats.errors + [ItemError(item, ItemEmail(item).error)])))
      && (ItemEmail(item).Success? && uid in st.users ==>
            UpdateItem(st.users[uid], item, roleName, now).Success?
            && var (v, changed) := UpdateItem(st.users[uid], item, roleName, now).value;
               r == SyncState(st.users[uid := v], st.nextId,
                              if changed then st.stats.(updated := st.stats.updated + 1) else st.stats))
      && (ItemEmail(item).Success? && uid !in st.users ==>
            NewUser(item, roleName, now, st.nextId, temporaryHash).Success?
            && r == SyncState(st.users[uid := NewUser(item, roleName, now, st.nextId, temporaryHash).value],
                              st.nextId + 1, st.stats.(added := st.stats.added + 1)))
      && (r.stats.added - st.stats.added) + (r.stats.updated - st.stats.updated)
         + (|r.stats.errors| - |st.stats.errors|) + (if Settled(st, item, roleName, now) then 1 else 0) == 1
  {
  }

  /** The item's row exists and the update finds nothing to change. */
  predicate Settled(st: SyncState, item: Item, roleName: string, now: Time) {
    item.Uid() in st.users
    && UpdateItem(st.users[item.Uid()], item, roleName, now).Success?
    && !UpdateItem(st.users[item.Uid()], item, roleName, now).value.1
  }

  /** How many items of a run found their row already up to date. */
  function Unchanged(st: SyncState, items: seq<Item>, roleName: string, now: Time, temporaryHash: string): (r: nat)
    ensures r <= |items|
  {
    if items == [] then 0
    else
      var front := items[..|items| - 1];
      Unchanged(st, front, roleName, now, temporaryHash)
      + (if Settled(Run(st, front, roleName, now, temporaryHash), items[|items| - 1], roleName, now) then 1 else 0)
  }

  /**
   * Every item of a run is counted exactly once: as added, as updated, as an
   * error, or as already up to date.
   */
  lemma {:induction false} RunCountsEachItem(st: SyncState, items: seq<Item>, roleName: string, now: Time, temporaryHash: string)
    ensures var r := Run(st, items, roleName, now, temporaryHash);
      (r.stats.added - st.stats.added) + (r.stats.updated - st.stats.updated)
      + (|r.stats.errors| - |st.stats.errors|) + Unchanged(st, items, roleName, now, temporaryHash) == |items|
  {
    if items != [] {
      var front := items[..|items| - 1];
      RunCountsEachItem(st, front, roleName, now, temporaryHash);
      StepOutcome(Run(st, front, roleName, now, temporaryHash), items[|items| - 1], roleName, now, temporaryHash);
    }
  }

  /**
   * One pupil: afterwards the pupil has a row holding the role and not
   * archived, and every row that held the role unarchived still does.
   */
  lemma StepCovers(st: SyncState, item: Item, roleName: string, now: Time, temporaryHash: string)
    requires item.Student?
    ensures var r := Step(st, item, roleName, now, temporaryHash);
      && item.Uid() in r.users && HasRole(r.users[item.Uid()], roleName) && !r.users[item.Uid()].archived
      && forall k :: k in st.users && HasRole(st.users[k], roleName) && !st.users[k].archived ==>
           k in r.users && HasRole(r.users[k], roleName) && !r.users[k].archived
  {
  }

  /** The sync loop over the feed, item after item. */
  function Run(st: SyncState, items: seq<Item>, roleName: string, now: Time, temporaryHash: string): (r: SyncState)
    ensures r.stats.totalExternal == st.stats.totalExternal && r.stats.archived == st.stats.archived
    ensures items == [] ==> r == st
  {
    if items == [] then st
    else Step(Run(st, items[..|items| - 1], roleName, now, temporaryHash), items[|items| - 1], roleName, now, temporaryHash)
  }

  /**
   * A run never deletes a row, keeps every row under its own external id,
   * inserts exactly as many rows as it counts as added, and counts each
   * item at most once.
   */
  lemma {:induction false} RunCounts(st: SyncState, items: seq<Item>, roleName: string, now: Time, temporaryHash: string)
    ensures var r := Run(st, items, roleName, now, temporaryHash);
      && st.users.Keys <= r.users.Keys
      && (KeyedByExternalId(st.users) ==> KeyedByExternalId(r.users))
      && r.stats.added >= st.stats.added
      && |r.users.Keys| == |st.users.Keys| + (r.stats.added - st.stats.added)
      && r.stats.added + r.stats.updated + |r.stats.errors|
         <= st.stats.added + st.stats.updated + |st.stats.errors| + |items|
      && r.stats.totalExternal == st.stats.totalExternal
  {
    if items != [] {
      RunCounts(st, items[..|items| - 1], roleName, now, temporaryHash);
      StepCounts(Run(st, items[..|items| - 1], roleName, now, temporaryHash), items[|items| - 1], roleName, now, temporaryHash);
    }
  }

  /** Every pupil of the feed ends the loop with a row that holds the role and is not archived. */
  lemma {:induction false} StudentRunCovers(st: SyncState, items: seq<Item>, roleName: string, now: Time, temporaryHash: string)
    requires forall i :: 0 <= i < |items| ==> items[i].Student?
    ensures forall i :: 0 <= i < |items| ==>
        Covered(Run(st, items, roleName, now, temporaryHash).users, items[i].Uid(), roleName)
  {
    if items != [] {
      var front := items[..|items| - 1];
      var last := items[|items| - 1];
      StudentRunCovers(st, front, roleName, now, temporaryHash);
      var mid := Run(st, front, roleName, now, temporaryHash);
      StepCovers(mid, last, roleName, now, temporaryHash);
      var r := Step(mid, last, roleName, now, temporaryHash);
      assert r == Run(st, items, roleName, now, temporaryHash);
      forall i | 0 <= i < |items| ensures Covered(r.users, items[i].Uid(), roleName) {
        if i < |items| - 1 {
          assert items[i] == front[i];
          assert Covered(mid.users, front[i].Uid(), roleName);
        }
      }
    }
  }

  /** The row under this key exists, holds the role and is not archived. */
  predicate Covered(users: map<string, User>, k: string, roleName: string) {
    k in users && HasRole(users[k], roleName) && !users[k].archived
  }

  /** The active holders of the role whose external id is not among the feed's. */
  function Missing(users: map<string, User>, roleName: string, uids: seq<string>): (r: set<string>)
    ensures r <= users.Keys
  {
    set k | k in users && HasRole(users[k], roleName) && !users[k].archived && users[k].externalId !in uids
  }

  /** The table after the rows in `keys` are archived now. */
  function Archive(users: map<string, User>, keys: set<string>, now: Time): map<string, User> {
    map k | k in users :: if k in keys then users[k].(archived := true, updatedAt := Some(now)) else users[k]
  }

  /**
   * _archive_missing, its effect: afterwards no holder of the role outside
   * the feed is active, rows of the feed and rows without the role are as
   * they were, and the count is the number of rows it newly archived.
   */
  lemma ArchiveMissingEffect(users: map<string, User>, roleName: string, uids: seq<string>, now: Time)
    ensures var missing := Missing(users, roleName, uids);
            var r := Archive(users, missing, now);
      && r.Keys == users.Keys
      && (forall k :: k in r && HasRole(r[k], roleName) && r[k].externalId !in uids ==> r[k].archived)
      && (forall k :: k in r && (users[k].externalId in uids || !HasRole(users[k], roleName)) ==> r[k] == users[k])
      && (forall k :: k in r ==> r[k].externalId == users[k].externalId && r[k].roles == users[k].roles)
      && missing == (set k | k in r && r[k].archived && !users[k].archived)
  {
  }

  /** Archiving one more row. */
  lemma ArchiveOneMore(users: map<string, User>, done: set<string>, k: string, now: Time)
    requires k in users && k !in done
    ensures k in Archive(users, done, now) && Archive(users, done, now)[k] == users[k]
    ensures Archive(users, done + {k}, now)
         == Archive(users, done, now)[k := users[k].(archived := true, updatedAt := Some(now))]
  {
  }

  /** The loop of _archive_missing over the rows it selected: each is archived now, and counted. */
  method ArchiveRows(users: map<string, User>, missing: set<string>, now: Time) returns (rows: map<string, User>, count: nat)
    requires missing <= users.Keys
    ensures rows == Archive(users, missing, now)
    ensures count == |missing|
  {
    rows := users;
    var todo := missing;
    ghost var done: set<string> := {};
    count := 0;
    while todo != {}
      invariant todo + done == missing && todo !! done
      invariant rows == Archive(users, done, now)
      invariant count == |done|
      decreases |todo|
    {
      var k :| k in todo;
      ArchiveOneMore(users, done, k, now);
      rows := rows[k := rows[k].(archived := true, updatedAt := Some(now))];
      assert |done + {k}| == |done| + 1;
      todo := todo - {k};
      done := done + {k};
      count := count + 1;
    }
    assert done == missing;
  }

  /** The session and tables the synchronisation works on. */
  class Roster {
    var users: map<string, User>
    var roleNames: set<string>
    var nextId: int

    predicate Valid()
      reads this
    {
      KeyedByExternalId(users)
    }

    constructor (users: map<string, User>, roleNames: set<string>, nextId: int)
      requires KeyedByExternalId(users)
      ensures Valid()
      ensures this.users == users && this.roleNames == roleNames && this.nextId == nextId
    {
      this.users := users;
      this.roleNames := roleNames;
      this.nextId := nextId;
    }

    /** _process_single_item: one item of the feed, counted into the given stats. */
    method ProcessSingleItem(item: Item, roleName: string, stats: SyncStats, now: Time, temporaryHash: string)
      returns (stats': SyncStats)
      modifies this
      ensures SyncState(users, nextId, stats') == Step(SyncState(old(users), old(nextId), stats), item, roleName, now, temporaryHash)
      ensures roleNames == old(roleNames)
    {
      stats' := stats;
      var uid := item.Uid();
      if uid in users {
        var result := UpdateItem(users[uid], item, roleName, now);
        if result.Failure? {
          stats' := stats'.(errors := stats'.errors + [ItemError(item, result.error)]);
        } else {
          users := users[uid := result.value.0];
          if result.value.1 {
            stats' := stats'.(updated := stats'.updated + 1);
          }
        }
      } else {
        var result := NewUser(item, roleName, now, nextId, temporaryHash);
        if result.Failure? {
          stats' := stats'.(errors := stats'.errors + [ItemError(item, result.error)]);
        } else {
          users := users[uid := result.value];
          nextId := nextId + 1;
          stats' := stats'.(added := stats'.added + 1);
        }
      }
    }

    /** _archive_missing: archives the missing role holders one by one and returns how many. */
    method ArchiveMissing(roleName: string, uids: seq<string>, now: Time) returns (count: nat)
      modifies this
      ensures users == Archive(old(users), Missing(old(users), roleName, uids), now)
      ensures count == |Missing(old(users), roleName, uids)|
      ensures roleNames == old(roleNames) && nextId == old(nextId)
    {
      var missing := Missing(users, roleName, uids);
      users, count := ArchiveRows(users, missing, now);
    }

    /**
     * sync: with the role missing, one error and no change; otherwise the
     * per-item loop followed by the archiving of role holders absent from
     * the feed.
     */
    method Sync(items: seq<Item>, roleName: string, now: Time, temporaryHash: string) returns (stats: SyncStats)
      requires Valid()
      modifies this
      ensures Valid()
      ensures SyncOutcome(old(users), old(nextId), roleNames, items, roleName, now, temporaryHash, users, nextId, stats)
      ensures roleNames == old(roleNames)
    {
      stats := SyncStats(0, 0, 0, [], |items|);
      if roleName !in roleNames {
        stats := stats.(errors := stats.errors + [RoleMissing(roleName)]);
        return;
      }
      var uids := seq(|items|, i requires 0 <= i < |items| => items[i].Uid());
      ghost var start := SyncState(users, nextId, stats);
      var i := 0;
      while i < |items|
        invariant 0 <= i <= |items|
        invariant SyncState(users, nextId, stats) == Run(start, items[..i], roleName, now, temporaryHash)
        invariant roleNames == old(roleNames)
      {
        assert items[..i + 1][..i] == items[..i];
        stats := ProcessSingleItem(items[i], roleName, stats, now, temporaryHash);
        i := i + 1;
      }
      assert items[..|items|] == items;
      ghost var mid := Run(start, items, roleName, now, temporaryHash);
      RunCounts(start, items, roleName, now, temporaryHash);
      ArchiveMissingEffect(mid.users, roleName, uids, now);
      var archived := ArchiveMissing(roleName, uids, now);
      stats := stats.(archived := archived);
      assert users == Archive(mid.users, Missing(mid.users, roleName, uids), now);
      assert nextId == mid.nextId && stats == mid.stats.(archived := |Missing(mid.users, roleName, uids)|);
    }

    /** sync_students: the pupils read from the school database, under the "student" role. */
    method SyncStudents(feed: Fetch<RawStudent>, now: Time, temporaryHash: string) returns (stats: SyncStats)
      requires Valid()
      modifies this
      ensures Valid() && roleNames == old(roleNames)
      ensures var items := if feed.Fetched? then Collect(feed.rows, MapStudent) else [];
        SyncOutcome(old(users), old(nextId), roleNames, seq(|items|, i requires 0 <= i < |items| => Student(items[i])),
                    StudentSync.StudentRole, now, temporaryHash, users, nextId, stats)
    {
      var students := GetStudents(feed);
      stats := Sync(seq(|students|, i requires 0 <= i < |students| => Student(students[i])),
                    StudentSync.StudentRole, now, temporaryHash);
    }

    /** sync_teachers: the staff read from the feed, under the "teacher" role. */
    method SyncTeachers(feed: Fetch<RawTeacher>, now: Time) returns (stats: SyncStats)
      requires Valid()
      modifies this
      ensures Valid() && roleNames == old(roleNames)
      ensures var items := if feed.Fetched? then Collect(feed.rows, MapTeacher) else [];
        SyncOutcome(old(users), old(nextId), roleNames, seq(|items|, i requires 0 <= i < |items| => Teacher(items[i])),
                    TeacherSync.TeacherRole, now, "", users, nextId, stats)
    {
      var teachers := GetTeachers(feed);
      stats := Sync(seq(|teachers|, i requires 0 <= i < |teachers| => Teacher(teachers[i])),
                    TeacherSync.TeacherRole, now, "");
    }
  }

  /** The outcome of one sync run, from the table before it to the table and counters after it. */
  ghost predicate SyncOutcome(users: map<string, User>, nextId: int, roleNames: set<string>, items: seq<Item>,
                              roleName: string, now: Time, temporaryHash: string,
                              users': map<string, User>, nextId': int, stats: SyncStats)
  {
    if roleName !in roleNames then
      users' == users && nextId' == nextId && stats == SyncStats(0, 0, 0, [RoleMissing(roleName)], |items|)
    else
      var uids := seq(|items|, i requires 0 <= i < |items| => items[i].Uid());
      var r := Run(SyncState(users, nextId, SyncStats(0, 0, 0, [], |items|)), items, roleName, now, temporaryHash);
      var missing := Missing(r.users, roleName, uids);
      && users' == Archive(r.users, missing, now)
      && nextId' == r.nextId
      && stats == r.stats.(archived := |missing|)
  }
}
