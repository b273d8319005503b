/** The `Classroom` class of the `ArraysSelfStudy` playground: a private array
    of students appended to by `add(student:)`, searched by name with a loop
    that returns at the first hit, and filtered by group with a loop that
    appends to a result. */
module ArraysSelfStudy {
  import opened Wrappers
  import opened Seqs
  import opened Students

  class Classroom {
    var students: seq<Student>

    /** An empty classroom. */
    constructor ()
      ensures students == []
    {
      students := [];
    }

    /** `add(student:)`: append at the end. */
    method Add(student: Student)
      modifies this
      ensures students == old(students) + [student]
    {
      students := students + [student];
    }

    /** `student(with:)`: walk the students and return the first with that
        name; `nil` when none has it. */
    method StudentWith(name: string) returns (r: Option<Student>)
      ensures r == FirstMatch(students, HasName(name))
      ensures r.None? <==> forall i :: 0 <= i < |students| ==> students[i].name != name
      ensures r.Some? ==> r.value.name == name && r.value in students
    {
      for i := 0 to |students|
        invariant forall j :: 0 <= j < i ==> students[j].name != name
      {
        if students[i].name == name {
          FirstIndexAt(students, HasName(name), i);
          return Some(students[i]);
        }
      }
      return None;
    }

    /** `students(of:)`: the members of the group, in insertion order. */
    method StudentsOf(group: int) returns (res: seq<Student>)
      ensures res == Filter(students, InGroup(group))
      ensures forall i :: 0 <= i < |res| ==> res[i].group == group && res[i] in students
    {
      res := [];
      for i := 0 to |students|
        invariant res == Filter(students[..i], InGroup(group))
      {
        assert students[..i + 1][..i] == students[..i];
        if students[i].group == group {
          res := res + [students[i]];
        }
      }
      assert students[..|students|] == students;
    }
  }

  /** The playground's script: with alya (group 0) and ira (group 1) added,
      group 0 has one member; once yulia (group 1) is added, group 1 has two;
      "alya" is then found. */
  method Script() returns (groupZero: nat, groupOne: nat, found: Option<Student>)
    ensures groupZero == 1 && groupOne == 2
    ensures found == Some(Student("alya", 20, 0))
  {
    groupZero, groupOne, found := RunScript(Student("alya", 20, 0), Student("ira", 20, 1), Student("yulia", 20, 1));
  }

  /** The script's steps on any three students of groups 0, 1 and 1: the
      first is found by its own name. */
  method RunScript(first: Student, second: Student, third: Student)
    returns (groupZero: nat, groupOne: nat, found: Option<Student>)
    requires first.group == 0 && second.group == 1 && third.group == 1
    ensures groupZero == 1 && groupOne == 2
    ensures found == Some(first)
  {
    var cRoom := new Classroom();
    ScriptQueries(first, second, third);
    cRoom.Add(first);
    cRoom.Add(second);
    assert cRoom.students == [first, second];
    var zero := cRoom.StudentsOf(0);
    groupZero := |zero|;
    cRoom.Add(third);
    assert cRoom.students == [first, second, third];
    var one := cRoom.StudentsOf(1);
    groupOne := |one|;
    found := cRoom.StudentWith(first.name);
  }

  /** The answers the script's queries have on its students. */
  lemma ScriptQueries(first: Student, second: Student, third: Student)
    requires first.group == 0 && second.group == 1 && third.group == 1
    ensures |Filter([first, second], InGroup(0))| == 1
    ensures |Filter([first, second, third], InGroup(1))| == 2
    ensures FirstMatch([first, second, third], HasName(first.name)) == Some(first)
  {
    GroupZero(first, second);
    GroupOne(first, second, third);
    FirstIndexAt([first, second, third], HasName(first.name), 0);
  }

  lemma GroupZero(first: Student, second: Student)
    requires first.group == 0 && second.group == 1
    ensures Filter([first, second], InGroup(0)) == [first]
  {
    GroupsAfterAdd([], first, 0);
    GroupsAfterAdd([first], second, 0);
    assert [first] + [second] == [first, second];
  }

  lemma GroupOne(first: Student, second: Student, third: Student)
    requires first.group == 0 && second.group == 1 && third.group == 1
    ensures Filter([first, second, third], InGroup(1)) == [second, third]
  {
    GroupsAfterAdd([], first, 1);
    GroupsAfterAdd([first], second, 1);
    GroupsAfterAdd([first, second], third, 1);
    assert [first] + [second] == [first, second];
    assert [first, second] + [third] == [first, second, third];
  }
}
