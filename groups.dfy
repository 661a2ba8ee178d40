/**
 * The class routes (app/routes/groups.py): the classes a class teacher
 * leads, and the page of one class with its teacher, its pupils and the
 * grade and letter read off the class name ("10-А").
 *
 * The `groups` table and the users are input sequences in stored order;
 * the teacher guard in front of every route is Dependencies.CurrentActiveTeacher.
 */
module Groups {
  import opened Wrappers
  import opened Text
  import opened Users
  import opened Http
  import Dailary

  datatype Group = Group(id: int, name: string)

  const ClassNotFound: HttpError := HttpError(NotFound, "Класс не найден")
  const LeaderNotFound: HttpError := HttpError(NotFound, "Классный руководитель не найден")
  /** An exception other than HTTPException or ValueError escaping a route. */
  const Crash: HttpError := HttpError(ServerError, "Internal Server Error")

  /** The groups whose name is listed, in stored order. */
  function Led(groups: seq<Group>, names: seq<string>): (r: seq<Group>)
    ensures |r| <= |groups|
    ensures forall g :: g in r <==> g in groups && g.name in names
  {
    if groups == [] then []
    else
      var g := groups[|groups| - 1];
      Led(groups[..|groups| - 1], names) + (if g.name in names then [g] else [])
  }

  /** The filter keeps the stored order: filtering two runs of groups one after the other is filtering each. */
  lemma {:induction false} LedAppend(a: seq<Group>, b: seq<Group>, names: seq<string>)
    ensures Led(a + b, names) == Led(a, names) + Led(b, names)
    decreases |b|
  {
    if b == [] {
      assert a + b == a;
    } else {
      var front := b[..|b| - 1];
      assert (a + b)[..|a + b| - 1] == a + front;
      LedAppend(a, front, names);
    }
  }

  /** A teacher who leads every stored class gets them all back, in the same order. */
  lemma {:induction false} LedAll(groups: seq<Group>, names: seq<string>)
    requires forall i :: 0 <= i < |groups| ==> groups[i].name in names
    ensures Led(groups, names) == groups
  {
    if groups != [] {
      var front := groups[..|groups| - 1];
      LedAll(front, names);
      assert front + [groups[|groups| - 1]] == groups;
    }
  }

  /**
   * for_group_leader: the loop over all groups. `name in None` raises for
   * a teacher without a list, which happens only once there is a group.
   */
  method ForGroupLeader(groups: seq<Group>, leader: User) returns (r: Result<seq<Group>, HttpError>)
    ensures leader.groupsLeader.Some? ==> r == Success(Led(groups, leader.groupsLeader.value))
    ensures leader.groupsLeader.None? && groups != [] ==> r == Failure(Crash)
    ensures leader.groupsLeader.None? && groups == [] ==> r == Success([])
  {
    var picked: seq<Group> := [];
    var i := 0;
    while i < |groups|
      invariant 0 <= i <= |groups|
      invariant leader.groupsLeader.None? ==> i == 0 && picked == []
      invariant leader.groupsLeader.Some? ==> picked == Led(groups[..i], leader.groupsLeader.value)
    {
      if leader.groupsLeader.None? {
        return Failure(Crash);
      }
      assert groups[..i + 1][..i] == groups[..i];
      if groups[i].name in leader.groupsLeader.value {
        picked := picked + [groups[i]];
      }
      i := i + 1;
    }
    assert groups[..|groups|] == groups;
    r := Success(picked);
  }

  /** query(Group).get(id): the group with this primary key. */
  function GroupById(groups: seq<Group>, id: int): (r: Option<Group>)
    ensures r.Some? ==> r.value in groups && r.value.id == id
    ensures r.None? <==> forall g :: g in groups ==> g.id != id
  {
    if groups == [] then None
    else if groups[0].id == id then Some(groups[0])
    else GroupById(groups[1..], id)
  }

  /** `groups_leader.contains([name])`: a null list contains nothing. */
  predicate Lists(u: User, name: string) {
    u.groupsLeader.Some? && name in u.groupsLeader.value
  }

  /** The first user whose list of led classes holds this class. */
  function ClassTeacher(users: seq<User>, name: string): (r: Option<User>)
    ensures r.Some? ==> r.value in users && Lists(r.value, name)
    ensures r.None? <==> forall u :: u in users ==> !Lists(u, name)
    ensures users != [] && Lists(users[0], name) ==> r == Some(users[0])
    ensures r.Some? ==> exists i :: 0 <= i < |users| && users[i] == r.value && forall j :: 0 <= j < i ==> !Lists(users[j], name)
  {
    if users == [] then None
    else if Lists(users[0], name) then Some(users[0])
    else
      var rest := ClassTeacher(users[1..], name);
      assert rest.Some? ==> exists i :: 0 <= i < |users| && users[i] == rest.value && forall j :: 0 <= j < i ==> !Lists(users[j], name) by {
        if rest.Some? {
          var tail := users[1..];
          var i :| 0 <= i < |tail| && tail[i] == rest.value && forall j :: 0 <= j < i ==> !Lists(tail[j], name);
          forall j | 0 <= j < i + 1 ensures !Lists(users[j], name) {
            if j > 0 { assert users[j] == tail[j - 1]; }
          }
          assert users[i + 1] == rest.value;
        }
      }
      rest
  }

  /**
   * The grade and the letter of a class name: the part before the first
   * '-' read as a number when it is all digits (else 0), and the part
   * after it (else ""). A digit that int() rejects (a superscript) raises
   * a ValueError that the route catches, leaving grade 0 and letter "".
   */
  function ParseName(name: string): (r: (int, string))
    ensures r.0 >= 0
    ensures !Contains(r.1, "-")
  {
    var parts := Split(name, "-");
    var gradePart := parts[0];
    var letter := if |parts| > 1 then parts[1] else "";
    if !AllDigits(gradePart) then (0, letter)
    else if AllDecimal(gradePart) then (DecimalValue(gradePart), letter)
    else (0, "")
  }

  /** Parsing the name "<grade>-<letter>" gives the grade and the letter back. */
  lemma ParseRoundTrip(grade: nat, letter: string)
    requires '-' !in letter
    ensures ParseName(NatToString(grade) + "-" + letter) == (grade, letter)
  {
    var g := NatToString(grade);
    ContainsChar(g, '-');
    ContainsChar(letter, '-');
    assert Join([g, letter], "-") == g + "-" + letter;
    SplitJoin([g, letter], "-");
    DecimalRoundTrip(grade);
  }

  /** A name without '-' has no letter; its grade is its number when it is one, else 0. */
  lemma ParseNoDash(name: string)
    requires '-' !in name
    ensures ParseName(name).1 == ""
    ensures name != [] && AllDecimal(name) ==> ParseName(name).0 == DecimalValue(name)
    ensures !AllDigits(name) ==> ParseName(name).0 == 0
  {
    ContainsChar(name, '-');
    SplitJoin([name], "-");
  }

  /** A superscript digit in the grade part is a parse error: grade 0 and no letter, whatever follows. */
  lemma ParseErrorFallback(letter: string)
    requires '-' !in letter
    ensures ParseName("1²-" + letter) == (0, "")
  {
    var g := "1²";
    ContainsChar(g, '-');
    ContainsChar(letter, '-');
    assert g + "-" + letter == "1²-" + letter;
    assert Join([g, letter], "-") == g + "-" + letter;
    SplitJoin([g, letter], "-");
    assert !IsDecimal(g[1]);
  }

  datatype ClassInfo = ClassInfo(id: int, name: string, grade: int, letter: string, studentCount: nat)
  datatype ClassPage = ClassPage(group: ClassInfo, teacher: User, students: seq<User>)

  /** get_class: the class, its class teacher and its pupils. */
  function ClassPageOf(groups: seq<Group>, users: seq<User>, groupId: int): (r: Result<ClassPage, HttpError>)
    ensures GroupById(groups, groupId).None? ==> r == Failure(ClassNotFound)
    ensures GroupById(groups, groupId).Some? && ClassTeacher(users, GroupById(groups, groupId).value.name).None? ==>
      r == Failure(LeaderNotFound)
    ensures r.Failure? ==> r.error.status == NotFound
    ensures r.Success? ==>
      && r.value.group.id == groupId
      && (exists g :: g in groups && g.id == groupId && g.name == r.value.group.name)
      && r.value.teacher in users && Lists(r.value.teacher, r.value.group.name)
      && (forall u :: u in r.value.students <==> u in users && u.groupName == Some(r.value.group.name) && !u.archived)
      && r.value.group.studentCount == |r.value.students|
      && (r.value.group.grade, r.value.group.letter) == ParseName(r.value.group.name)
  {
    match GroupById(groups, groupId)
    case None => Failure(ClassNotFound)
    case Some(g) =>
      match ClassTeacher(users, g.name)
      case None => Failure(LeaderNotFound)
      case Some(t) =>
        var students := Dailary.Pupils(users, g.name);
        var (grade, letter) := ParseName(g.name);
        Success(ClassPage(ClassInfo(groupId, g.name, grade, letter, |students|), t, students))
  }

  /** for_group_leader/{group_id}: the pupils of the class; a missing class fails on `.name` of None. */
  function LeaderClass(groups: seq<Group>, users: seq<User>, groupId: int): (r: Result<seq<User>, HttpError>)
    ensures GroupById(groups, groupId).None? <==> r == Failure(Crash)
    ensures r.Success? ==> exists g :: (g in groups && g.id == groupId
      && forall u :: u in r.value <==> u in users && u.groupName == Some(g.name) && !u.archived)
  {
    match GroupById(groups, groupId)
    case None => Failure(Crash)
    case Some(g) => Success(Dailary.Pupils(users, g.name))
  }

  /** Both class routes list the same pupils for a class that has a class teacher. */
  lemma SamePupils(groups: seq<Group>, users: seq<User>, groupId: int)
    requires ClassPageOf(groups, users, groupId).Success?
    ensures LeaderClass(groups, users, groupId) == Success(ClassPageOf(groups, users, groupId).value.students)
  {
  }
}
