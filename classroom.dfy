/** The `Classroom` class of the `Arrays` playground: a private array of
    students appended to by `add(student:)`, searched by name with
    `first(where:)` and filtered by group with a loop. */
module Arrays {
  import opened Wrappers
  import opened Seqs
  import opened Students

  class Classroom {
    var students: seq<Student>

    /** An empty classroom. */
    constructor ()
      ensures students == []
    {
      students := [];
    }

    /** `add(student:)`: append at the end. */
    method Add(student: Student)
      modifies this
      ensures students == old(students) + [student]
    {
      students := students + [student];
    }

    /** `student(named:)`: the first student with that name, or `nil`. */
    function StudentNamed(name: string): (r: Option<Student>)
      reads this
      ensures r.None? <==> forall i :: 0 <= i < |students| ==> students[i].name != name
      ensures r.Some? ==> exists i :: 0 <= i < |students| && students[i] == r.value && r.value.name == name &&
                                      forall j :: 0 <= j < i ==> students[j].name != name
    {
      FirstMatch(students, HasName(name))
    }

    /** `students(ofGroup:)`: the members of the group, in insertion order. */
    method StudentsOfGroup(group: int) returns (result: seq<Student>)
      ensures result == Filter(students, InGroup(group))
      ensures forall i :: 0 <= i < |result| ==> result[i].group == group && result[i] in students
    {
      result := [];
      for i := 0 to |students|
        invariant result == Filter(students[..i], InGroup(group))
      {
        assert students[..i + 1][..i] == students[..i];
        if students[i].group == group {
          result := result + [students[i]];
        }
      }
      assert students[..|students|] == students;
    }
  }

  /** The playground's script: four students added, "Alla" found at age 12,
      "Comfd" not found, and group 1 listing Tanya, Tonya and Alla. */
  method Script() returns (alla: Option<Student>, comfd: Option<Student>, groupOne: seq<Student>)
    ensures alla == Some(Student("Alla", 12, 1))
    ensures comfd.None?
    ensures groupOne == [Student("Tanya", 12, 1), Student("Tonya", 12, 1), Student("Alla", 12, 1)]
  {
    var classroom := new Classroom();
    var tanya, darra := Student("Tanya", 12, 1), Student("Darra", 12, 2);
    var tonya, allaStudent := Student("Tonya", 12, 1), Student("Alla", 12, 1);
    classroom.Add(tanya);
    classroom.Add(darra);
    classroom.Add(tonya);
    classroom.Add(allaStudent);
    assert classroom.students == [tanya, darra, tonya, allaStudent];

    alla := classroom.StudentNamed("Alla");
    comfd := classroom.StudentNamed("Comfd");
    ScriptLookups(classroom.students);

    groupOne := classroom.StudentsOfGroup(1);
    ScriptGroupOne(tanya, darra, tonya, allaStudent);
  }

  /** The script's two lookups: "Alla" is the fourth student, and nobody is
      called "Comfd". */
  lemma ScriptLookups(students: seq<Student>)
    requires students == [Student("Tanya", 12, 1), Student("Darra", 12, 2), Student("Tonya", 12, 1), Student("Alla", 12, 1)]
    ensures FirstMatch(students, HasName("Alla")) == Some(Student("Alla", 12, 1))
    ensures FirstMatch(students, HasName("Comfd")).None?
  {
    assert |"Tanya"| == |"Darra"| == |"Tonya"| == 5 && |"Alla"| == 4;
    FirstIndexAt(students, HasName("Alla"), 3);
    assert "Tanya"[0] != "Comfd"[0] && "Darra"[0] != "Comfd"[0] && "Tonya"[0] != "Comfd"[0];
    assert forall j :: 0 <= j < |students| ==> !HasName("Comfd")(students[j]);
  }

  /** Group 1 of the script's four students, taken one append at a time. */
  lemma ScriptGroupOne(tanya: Student, darra: Student, tonya: Student, alla: Student)
    requires tanya.group == 1 && darra.group == 2 && tonya.group == 1 && alla.group == 1
    ensures Filter([tanya, darra, tonya, alla], InGroup(1)) == [tanya, tonya, alla]
  {
    GroupsAfterAdd([], tanya, 1);
    GroupsAfterAdd([tanya], darra, 1);
    GroupsAfterAdd([tanya, darra], tonya, 1);
    GroupsAfterAdd([tanya, darra, tonya], alla, 1);
    assert [tanya] + [darra] == [tanya, darra];
    assert [tanya, darra] + [tonya] == [tanya, darra, tonya];
    assert [tanya, darra, tonya] + [alla] == [tanya, darra, tonya, alla];
    assert [] + [tanya] == [tanya];
  }
}
