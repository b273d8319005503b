/** The `Student` struct both classroom playgrounds declare, and the two
    questions their classrooms answer about a list of students: who has a
    given name, and who is in a given group. */
module Students {
  import opened Wrappers
  import opened Seqs

  datatype Student = Student(name: string, age: int, group: int)

  /** The closure `{ $0.name == name }`. */
  function HasName(name: string): Student -> bool {
    (s: Student) => s.name == name
  }

  /** The test `student.group == group`. */
  function InGroup(group: int): Student -> bool {
    (s: Student) => s.group == group
  }

  /** Appending a student of group `g` adds that student, last, to the members
      of `g`, and leaves the members of every other group as they were. */
  lemma GroupsAfterAdd(students: seq<Student>, student: Student, group: int)
    ensures Filter(students + [student], InGroup(group)) ==
              Filter(students, InGroup(group)) + (if student.group == group then [student] else [])
    ensures |Filter(students + [student], InGroup(group))| ==
              |Filter(students, InGroup(group))| + (if student.group == group then 1 else 0)
  {
    assert (students + [student])[..|students|] == students;
  }

  /** A name already present is still found at the same student after an
      append; an absent name is found at the appended student if it has it. */
  lemma NamedAfterAdd(students: seq<Student>, student: Student, name: string)
    ensures FirstMatch(students + [student], HasName(name)) ==
              if FirstMatch(students, HasName(name)).Some? then FirstMatch(students, HasName(name))
              else if student.name == name then Some(student) else None
  {
    FirstMatchConcat(students, [student], HasName(name));
    assert FirstIndex([student], HasName(name)) == if student.name == name then Some(0) else None;
  }
}
