/**
 * The two upstream sources of the roster
 * (app/services/sync_service/external_services.py): the staff JSON feed and
 * the pupils table of the legacy school database.
 *
 * The transport itself (HTTP request, MySQL connection) is a parameter: a
 * fetch either delivers its raw rows or fails, and a failed fetch yields an
 * empty list. Each raw row is mapped on its own; a row that is skipped or
 * whose mapping raises is dropped and the loop goes on.
 */
module ExternalFeed {
  import opened Wrappers
  import opened Text
  import opened SyncSchemas

  const ImagePrefix: string := "https://school1298.ru/portal/workers/image/teachers/"
  const UnknownTeacher: string := "Unknown Teacher"
  /** Staff rows with one of these e-mails are not imported. */
  const ExcludedEmails: seq<string> := ["нет", "e.a.kurakina@school1298.ru"]
  const PupilPrefix: string := "Ученик "

  /** A JSON member: missing, present as null, or a string. */
  datatype Field = Absent | Null | Str(s: string)

  /** One element of the staff feed's "value" array. */
  datatype RawTeacher = RawTeacher(
    id: Option<int>,
    name: Field,
    email: Option<string>,
    classStr: Option<string>,
    image: Option<string>
  )

  /** One row of `SELECT personid, email, firstName, lastName, patronymic, className`; None is SQL NULL. */
  datatype RawStudent = RawStudent(
    personId: Option<int>,
    email: Option<string>,
    firstName: Option<string>,
    lastName: Option<string>,
    patronymic: Option<string>,
    className: Option<string>
  )

  /** What happens to one raw row: it is kept, skipped on purpose, or its mapping raises. */
  datatype Mapped<T> = Kept(item: T) | Skipped | Failed

  /** The outcome of the request or query as a whole. */
  datatype Fetch<R> = Fetched(rows: seq<R>) | FetchFailed


  /** The stripped, non-empty pieces of a comma-separated list. */
  function CleanGroups(parts: seq<string>): (r: seq<string>)
    ensures |r| <= |parts|
  {
    if parts == [] then []
    else
      var g := Strip(parts[0]);
      var rest := CleanGroups(parts[1..]);
      if g != [] then [g] + rest else rest
  }

  /** The kept pieces are non-empty and stripped, and carry no comma when the parts had none. */
  lemma {:induction false} CleanGroupsClean(parts: seq<string>)
    ensures forall g :: g in CleanGroups(parts) ==> g != [] && Stripped(g)
    ensures (forall p :: p in parts ==> ',' !in p) ==> forall g :: g in CleanGroups(parts) ==> ',' !in g
  {
    if parts != [] {
      CleanGroupsClean(parts[1..]);
      var g := Strip(parts[0]);
      assert Stripped(g);
      assert forall p :: p in parts[1..] ==> p in parts;
      assert CleanGroups(parts) == if g != [] then [g] + CleanGroups(parts[1..]) else CleanGroups(parts[1..]);
    }
  }

  /** The classes a teacher leads, read from `classStr`; None when it is missing or blank. */
  function LeaderGroups(classStr: Option<string>): (r: Option<seq<string>>)
    ensures r.Some? <==> classStr.Some? && Strip(classStr.value) != []
    ensures r.Some? ==> forall g :: g in r.value ==> g != [] && Stripped(g) && !Contains(g, ",")
  {
    if classStr.Some? && Strip(classStr.value) != [] then
      var parts := Split(classStr.value, ",");
      assert forall p :: p in parts ==> ',' !in p by {
        forall p | p in parts ensures ',' !in p {
          ContainsChar(p, ',');
        }
      }
      var r := CleanGroups(parts);
      CleanGroupsClean(parts);
      assert forall g :: g in r ==> !Contains(g, ",") by {
        forall g | g in r ensures !Contains(g, ",") {
          ContainsChar(g, ',');
        }
      }
      Some(r)
    else None
  }

  /** Stripping and dropping blanks keeps a list that is already clean. */
  lemma {:induction false} CleanGroupsKeepsClean(parts: seq<string>)
    requires forall k :: 0 <= k < |parts| ==> parts[k] != [] && Stripped(parts[k])
    ensures CleanGroups(parts) == parts
  {
    if parts != [] {
      StripStripped(parts[0]);
      CleanGroupsKeepsClean(parts[1..]);
    }
  }

  /** Writing a list of classes as "a,b,c" and reading it back gives the same list. */
  lemma LeaderGroupsRoundTrip(groups: seq<string>)
    requires |groups| >= 1
    requires forall k :: 0 <= k < |groups| ==>
      groups[k] != [] && Stripped(groups[k]) && !Contains(groups[k], ",")
    ensures LeaderGroups(Some(Join(groups, ","))) == Some(groups)
  {
    var s := Join(groups, ",");
    assert s[0] == groups[0][0];
    assert Strip(s) != [];
    SplitJoin(groups, ",");
    CleanGroupsKeepsClean(groups);
  }

  /** Maps one staff row: rows without an id and excluded e-mails are skipped, a null name raises. */
  function MapTeacher(t: RawTeacher): (r: Mapped<TeacherItem>)
    ensures r.Skipped? <==> t.id.None? || t.id.value == 0 || (t.email.Some? && t.email.value in ExcludedEmails)
    ensures r.Failed? <==> !r.Skipped? && t.name.Null?
    ensures r.Kept? ==> && r.item.uid == IntToString(t.id.value)
                        && r.item.email == t.email
                        && r.item.leaderGroups == LeaderGroups(t.classStr)
    ensures r.Kept? ==> r.item.displayName == (if t.name.Absent? then UnknownTeacher else t.name.s)
    ensures r.Kept? ==> (r.item.image.Some? <==> Truthy(t.image))
    ensures r.Kept? && r.item.image.Some? ==>
      StartsWith(r.item.image.value, ImagePrefix) && r.item.image.value[|ImagePrefix|..] == t.image.value
  {
    if t.id.None? || t.id.value == 0 || (t.email.Some? && t.email.value in ExcludedEmails) then Skipped
    else if t.name.Null? then Failed
    else
      var image := if Truthy(t.image) then Some(ImagePrefix + t.image.value) else None;
      var name := if t.name.Absent? then UnknownTeacher else t.name.s;
      Kept(TeacherItem(IntToString(t.id.value), name, image, LeaderGroups(t.classStr), t.email))
  }

  /** "last first patronymic" stripped, or "Ученик <personid>" when that is blank. */
  function PupilDisplayName(last: string, first: string, patronymic: string, uid: string): (d: string)
    requires uid != []
    ensures d != []
    ensures Strip(last + " " + first + " " + patronymic) != [] ==> d == Strip(last + " " + first + " " + patronymic)
    ensures last == [] && first == [] && patronymic == [] ==> d == PupilPrefix + uid
  {
    var full := Strip(last + " " + first + " " + patronymic);
    if full == [] then PupilPrefix + uid else full
  }

  /** A name part that is one word: non-empty, stripped and without a space. */
  predicate Word(w: string) {
    w != [] && Stripped(w) && ' ' !in w
  }

  /** With three one-word name parts, the display name splits on spaces into last, first, patronymic. */
  lemma DisplayNameWords(last: string, first: string, patronymic: string, uid: string)
    requires uid != [] && Word(last) && Word(first) && Word(patronymic)
    ensures Split(PupilDisplayName(last, first, patronymic, uid), " ") == [last, first, patronymic]
  {
    var words := [last, first, patronymic];
    var joined := last + " " + first + " " + patronymic;
    assert Join(words, " ") == joined by {
      assert words[1..] == [first, patronymic];
      assert words[1..][1..] == [patronymic];
      assert Join(words[1..], " ") == first + " " + patronymic;
    }
    assert joined[0] == last[0];
    assert joined[|joined| - 1] == patronymic[|patronymic| - 1];
    StripStripped(joined);
    ContainsChar(last, ' ');
    ContainsChar(first, ' ');
    ContainsChar(patronymic, ' ');
    SplitJoin(words, " ");
  }

  /** Maps one pupil row: rows without a personid are skipped, a NULL name part raises on strip(). */
  function MapStudent(s: RawStudent): (r: Mapped<StudentItem>)
    ensures r.Skipped? <==> s.personId.None? || s.personId.value == 0
    ensures r.Failed? <==> !r.Skipped? && (s.firstName.None? || s.lastName.None? || s.patronymic.None?)
    ensures r.Kept? ==> && r.item.uid == IntToString(s.personId.value)
                        && r.item.email == s.email
                        && r.item.groupName == s.className
                        && r.item.firstName == Some(Strip(s.firstName.value))
                        && r.item.lastName == Some(Strip(s.lastName.value))
                        && r.item.patronymic == Some(Strip(s.patronymic.value))
                        && r.item.displayName == PupilDisplayName(
                             r.item.lastName.value, r.item.firstName.value, r.item.patronymic.value, r.item.uid)
  {
    if s.personId.None? || s.personId.value == 0 then Skipped
    else if s.firstName.None? || s.lastName.None? || s.patronymic.None? then Failed
    else
      var first := Strip(s.firstName.value);
      var last := Strip(s.lastName.value);
      var patronymic := Strip(s.patronymic.value);
      var uid := IntToString(s.personId.value);
      Kept(StudentItem(uid, PupilDisplayName(last, first, patronymic, uid), s.email, s.className,
                       Some(first), Some(last), Some(patronymic)))
  }

  /** The kept items of the mapped rows, in row order. */
  function Collect<R, T>(rows: seq<R>, f: R -> Mapped<T>): (r: seq<T>)
    ensures |r| <= |rows|
    ensures forall i :: 0 <= i < |r| ==> exists j :: 0 <= j < |rows| && f(rows[j]) == Kept(r[i])
    ensures forall j :: 0 <= j < |rows| && f(rows[j]).Kept? ==> f(rows[j]).item in r
  {
    if rows == [] then []
    else
      var front := Collect(rows[..|rows| - 1], f);
      var last := rows[|rows| - 1];
      var r := front + (if f(last).Kept? then [f(last).item] else []);
      assert forall j :: 0 <= j < |rows| - 1 ==> rows[..|rows| - 1][j] == rows[j];
      r
  }

  /** One more row extends the collected items by that row's item, if it is kept. */
  lemma CollectSnoc<R, T>(rows: seq<R>, i: nat, f: R -> Mapped<T>)
    requires i < |rows|
    ensures Collect(rows[..i + 1], f) == Collect(rows[..i], f) + (if f(rows[i]).Kept? then [f(rows[i]).item] else [])
  {
    assert rows[..i + 1][..i] == rows[..i];
  }

  /** The per-row loop both fetchers run: map each row, keep what maps, go on past the rest. */
  method CollectRows<R, T>(rows: seq<R>, f: R -> Mapped<T>) returns (items: seq<T>)
    ensures items == Collect(rows, f)
  {
    items := [];
    var i := 0;
    while i < |rows|
      invariant 0 <= i <= |rows|
      invariant items == Collect(rows[..i], f)
    {
      CollectSnoc(rows, i, f);
      var m := f(rows[i]);
      if m.Kept? {
        items := items + [m.item];
      }
      i := i + 1;
    }
    assert rows[..|rows|] == rows;
  }

  /** get_teachers_external: a failed request yields no teachers. */
  method GetTeachers(feed: Fetch<RawTeacher>) returns (teachers: seq<TeacherItem>)
    ensures feed.FetchFailed? ==> teachers == []
    ensures feed.Fetched? ==> teachers == Collect(feed.rows, MapTeacher)
  {
    teachers := [];
    if feed.Fetched? {
      teachers := CollectRows(feed.rows, MapTeacher);
    }
  }

  /** get_students_external: a failed connection or query yields no students. */
  method GetStudents(feed: Fetch<RawStudent>) returns (students: seq<StudentItem>)
    ensures feed.FetchFailed? ==> students == []
    ensures feed.Fetched? ==> students == Collect(feed.rows, MapStudent)
  {
    students := [];
    if feed.Fetched? {
      students := CollectRows(feed.rows, MapStudent);
    }
  }
}
