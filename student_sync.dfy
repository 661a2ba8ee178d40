/**
 * The pupil-specific hooks of the roster synchronisation
 * (app/services/sync_service/student_sync_service.py): where a pupil's
 * e-mail comes from, how one is made up when the school database has none,
 * and the class (group) a pupil belongs to.
 */
module StudentSync {
  import opened Wrappers
  import opened Text
  import opened Users
  import opened SyncSchemas

  const StudentRole: string := "student"
  const SchoolDomain: string := "@school1298.ru"
  /** Every imported pupil starts with the hash of this password. */
  const TemporaryPassword: string := "temporary_password_123"

  /**
   * (name or '').strip().lower() with every non-alphanumeric character
   * dropped: the alphanumeric characters of the stripped, lower-cased name,
   * in order, with no upper-case letter left.
   */
  function CleanName(name: Option<string>): (r: string)
    ensures r == KeepAlnum(Lower(Strip(name.GetOr(""))))
    ensures forall i :: 0 <= i < |r| ==> IsAlnum(r[i]) && !IsUpper(r[i])
    ensures '.' !in r
  {
    var r := KeepAlnum(Lower(Strip(name.GetOr(""))));
    assert forall i :: 0 <= i < |r| ==> r[i] != '.';
    r
  }

  /** The first n characters of s, as s[:n]. */
  function Prefix(s: string, n: nat): (r: string)
    ensures |r| <= n && StartsWith(s, r)
    ensures |r| == if |s| <= n then |s| else n
  {
    if |s| <= n then s else s[..n]
  }

  /**
   * _generate_student_email: "first.last", else whichever name is left,
   * else "student." and the first eight characters of the uid, at the
   * school's domain.
   */
  function GenerateEmail(s: StudentItem): (r: string)
    ensures EndsWith(r, SchoolDomain) && |r| > |SchoolDomain|
  {
    var first := CleanName(s.firstName);
    var last := CleanName(s.lastName);
    var local :=
      if first != [] && last != [] then first + "." + last
      else if first != [] then first
      else if last != [] then last
      else "student." + Prefix(s.uid, 8);
    local + SchoolDomain
  }

  /** The part of a generated address before the domain. */
  function LocalPart(email: string): string
    requires |email| >= |SchoolDomain|
  {
    email[..|email| - |SchoolDomain|]
  }

  /**
   * Which local part a generated address has: both cleaned names, split
   * back apart at the dot, or the one name present, or "student." and the
   * uid's first eight characters (all of it when shorter).
   */
  lemma GeneratedLocalPart(s: StudentItem)
    ensures var local := LocalPart(GenerateEmail(s));
            var first := CleanName(s.firstName);
            var last := CleanName(s.lastName);
            && (first != [] && last != [] ==> Split(local, ".") == [first, last])
            && (first != [] && last == [] ==> local == first)
            && (first == [] && last != [] ==> local == last)
            && (first == [] && last == [] ==>
                  local == "student." + Prefix(s.uid, 8) && |local| <= 16 && StartsWith(s.uid, local[8..]))
  {
    var first := CleanName(s.firstName);
    var last := CleanName(s.lastName);
    var r := GenerateEmail(s);
    var local := LocalPart(r);
    if first != [] && last != [] {
      assert local == first + "." + last;
      ContainsChar(first, '.');
      ContainsChar(last, '.');
      assert Join([first, last], ".") == local by {
        assert [first, last][1..] == [last];
      }
      SplitJoin([first, last], ".");
    } else if first == [] && last == [] {
      assert local == "student." + Prefix(s.uid, 8);
      assert local[8..] == Prefix(s.uid, 8);
    }
  }

  /** A usable e-mail in the school database: present, not blank and not the word "none". */
  predicate UsableEmail(email: Option<string>) {
    email.Some? && email.value != [] && Strip(email.value) != [] && Lower(email.value) != "none"
  }

  /**
   * _get_external_email (also _get_item_email): the database's e-mail,
   * stripped and lower-cased, or a generated one. It is never empty.
   */
  function ExternalEmail(s: StudentItem): (r: string)
    ensures r != []
    ensures UsableEmail(s.email) ==> r == Lower(Strip(s.email.value))
    ensures !UsableEmail(s.email) ==> r == GenerateEmail(s) && EndsWith(r, SchoolDomain)
  {
    if UsableEmail(s.email) then Lower(Strip(s.email.value)) else GenerateEmail(s)
  }

  /** _should_update_email: since the e-mail is never empty, this is plain inequality. */
  function ShouldUpdateEmail(u: User, s: StudentItem): (r: bool)
    ensures r <==> ExternalEmail(s) != u.email
  {
    var external := ExternalEmail(s);
    external != [] && external != u.email
  }

  /** _update_specific_fields: a non-empty class name from the feed replaces the stored one. */
  function UpdateSpecific(u: User, s: StudentItem): (r: (User, bool))
    ensures r.0 == u.(groupName := r.0.groupName)
    ensures r.1 <==> r.0 != u
    ensures Truthy(s.groupName) ==> r.0.groupName == s.groupName
    ensures !Truthy(s.groupName) ==> r.0 == u
  {
    if Truthy(s.groupName) && u.groupName != s.groupName then (u.(groupName := s.groupName), true)
    else (u, false)
  }


  /** _get_specific_fields: a new pupil gets the feed's class and the temporary password's hash. */
  function SpecificFields(u: User, s: StudentItem, temporaryHash: string): (r: User)
    ensures r == u.(groupName := r.groupName, passwordHash := r.passwordHash)
    ensures r.groupName == s.groupName && r.passwordHash == Some(temporaryHash)
  {
    u.(groupName := s.groupName, passwordHash := Some(temporaryHash))
  }
}
