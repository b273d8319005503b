# Contact books, task lists, trees, classrooms and bookmarks

A model, in Dafny, of the small collection classes in two sets of Swift
learning exercises: `juliasamartseva/` and `alyanovikova/`. It proves
properties of each.

- **Contact validation.** `Contact.init(name:phone:email:work:)` rejects bad
  fields in a fixed order. The phone pattern `\A[0-9]{12}\z` and the email
  pattern `.+@.+\..` are written as plain string predicates. The email
  predicate is proved equal to the regular expression's own reading: a search
  for `x@y.z` anywhere in the string.
- **Contact stores.**
  - `ContactList` is an array in the package and in the playground, each with
    an append, a filter loop, a first-by-id lookup, an update or field copy,
    and a remove-all.
  - `ContactBook` is a dictionary from `Int` to contact plus an id counter.
    Alya wrote two versions of it, a persistent package and a playground.
    They share the invariant that every key is the id of the contact stored
    under it and lies between 1 and the counter.
    - The package's operations preserve this invariant.
    - The playground's `updateContact(id:newContact:)` preserves it exactly
      when the new contact's id is the key.
- **Task and todo lists.** Arrays of items with a completion flag set by index.
  `TaskListManager` guards the index, but only against the end of the array.
  `TodoList` does not guard it at all.
- **Trees.** An n-ary `Node` with two searches in each playground: a
  first-match search and a collect-all search. Both are proved against the
  tree's pre-order listing.
- **Classrooms.** An append, a first-by-name lookup and a filter by group. The
  Arrays playground uses `first(where:)`; the ArraysSelfStudy playground uses
  explicit loops.
- **Bookmarks.**
  - Books.swift has a range-checked append and removes the first equal
    bookmark. Its bookmark is a struct holding a reference to its book, and
    `changeBook(to:)` moves it between books.
  - The BookLibrary playground has a bookmark class, an append that sets the
    bookmark's book, and a delete of the first equal bookmark.

## How the model is built

- **Persistence.** Every class that writes a JSON file has a ghost field
  `file: Stored<T>`. `Stored<T>` is `Missing`, `Corrupt` or `Saved(contents)`.
  - Each mutating method states what the file holds afterwards. This is
    always the whole collection, except where the source skips the write.
  - The throwing initialiser `init()` is a static `Open(file)`. It returns
    `None` exactly when the file exists but does not decode.
- **UUIDs.** `UUID()` becomes a caller-supplied `Uuid` (a `nat`).
- **Dictionary order.** `listContacts(where:)` is a loop over the dictionary's
  key set that takes any key still remaining, because Swift leaves the order
  unspecified. The result is specified by `IsListing`.
  - `IsListing` says the result holds, once each, exactly the stored contacts
    that match.
  - A ghost sequence of keys records the order the loop happened to take.
- **Points of the code worth noting.**
  - The contact-book script corrects Ira's phone before counting phones that
    start with `+`, so the count is 3, and then 2 after Alya is removed.
  - The email check is the regular expression `.+@.+\..`, searched anywhere in
    the string.
  - Julia's `update(contact:)` returns without changing or writing anything
    when no contact has the id.

## Model

| member | source | states |
|---|---|---|
| Contacts.NewContact | juliasamartseva/Contacts/Sources/Contacts/Contacts.swift:14-40 | each error happens exactly when the checks before it pass and its own fails (empty name, empty phone, bad phone, then bad email, the email checked only when present); success exactly when all pass, with the given fields stored |
| Contacts.EmailCheckIsPatternSearch | juliasamartseva/Contacts/Sources/Contacts/Contacts.swift:142-144 | the index form of the email check holds iff the string contains `x@y.z`, with `x` and `y` non-empty, `z` one character, and no line terminator in `x`, `y` or `z` (the regex `.+@.+\..` searched anywhere) |
| Contacts.MatchGivesSplit | juliasamartseva/Contacts/Sources/Contacts/Contacts.swift:142-144 | a match at an `@` and a later `.` yields the regex's split of the string |
| Contacts.SplitGivesMatch | juliasamartseva/Contacts/Sources/Contacts/Contacts.swift:142-144 | the regex's split of the string yields a match of the index form |
| Contacts.ValidEmailShape | juliasamartseva/Contacts/Sources/Contacts/Contacts.swift:142-144 | a valid address has an `@` with a character before it and a later `.` with a character after it |
| Contacts.MissingSymbolNoMatch | juliasamartseva/Contacts/Sources/Contacts/Contacts.swift:142-144 | an address lacking `@` or `.` is refused |
| Contacts.NoMatchAt | juliasamartseva/Contacts/Sources/Contacts/Contacts.swift:142-144 | with a single `@` that no match can use, the address is refused |
| Contacts.InitializationTestCases | juliasamartseva/Contacts/Tests/ContactsTests/ContactsTests.swift:17-52 | the test's five malformed addresses give `invalidEmail`, phone "566" gives `invalidPhone`, and the well-formed contact is made |
| Contacts.RefusedTestEmails | juliasamartseva/Contacts/Tests/ContactsTests/ContactsTests.swift:18-41 | "hello.gmailcom", "hello@gmailcom", "hello@.gmailcom", "@gmail.com" and "hello@gmailcom." fail the email check |
| ContactListStore.ContactList.Restore | juliasamartseva/Contacts/Sources/Contacts/Contacts.swift:57-62 | the list holds exactly the contacts it is given, and the file is as given |
| ContactListStore.ContactList.Open | juliasamartseva/Contacts/Sources/Contacts/Contacts.swift:65-77 | fails exactly on an undecodable file; a missing file gives an empty list; a saved file gives its contents; nothing is written |
| ContactListStore.ContactList.Add | juliasamartseva/Contacts/Sources/Contacts/Contacts.swift:81-85 | the list becomes old + [contact], `size` grows by one, and the file holds the new list |
| ContactListStore.ContactList.ContactsWhere | juliasamartseva/Contacts/Sources/Contacts/Contacts.swift:87-94 | the result is the order-preserving filter of the list by the predicate |
| ContactListStore.ContactList.ContactWithId | juliasamartseva/Contacts/Sources/Contacts/Contacts.swift:96-99 | `nil` iff no contact has the id; otherwise a contact with that id, with no earlier contact having it |
| ContactListStore.ContactList.Update | juliasamartseva/Contacts/Sources/Contacts/Contacts.swift:101-109 | the first contact with the same id is replaced; with none, nothing changes and the file is not written; otherwise the file holds the new list |
| ContactListStore.ContactList.Remove | juliasamartseva/Contacts/Sources/Contacts/Contacts.swift:111-115 | every contact equal to the argument is removed, the rest stay in order, and the file holds the new list |
| ContactListStore.UpdatedSpec | juliasamartseva/Contacts/Sources/Contacts/Contacts.swift:101-108 | update keeps the length, changes only the first element with the id, and with an unknown id leaves the list as it was |
| ContactListStore.AddThenFind | juliasamartseva/Contacts/Tests/ContactsTests/ContactsTests.swift:122-146 | a contact added under a fresh id is then found by that id |
| ContactListStore.UpdateThenFind | juliasamartseva/Contacts/Tests/ContactsTests/ContactsTests.swift:194-213 | after an update with a present id, the lookup returns the new contact |
| ContactListStore.RemoveThenFind | juliasamartseva/Contacts/Tests/ContactsTests/ContactsTests.swift:168-191 | after remove, no contact has the removed contact's id, and the length drops by its number of copies |
| ContactListPlayground.ContactList.constructor | juliasamartseva/Contacts.playground/Contents.swift:61-67 | both initialisers hold exactly the given contacts |
| ContactListPlayground.ContactList.Add | juliasamartseva/Contacts.playground/Contents.swift:71-73 | appends at the end and `size` grows by one |
| ContactListPlayground.ContactList.ContactsWhere | juliasamartseva/Contacts.playground/Contents.swift:75-81 | the result is the order-preserving filter of the list |
| ContactListPlayground.ContactList.ContactWithId | juliasamartseva/Contacts.playground/Contents.swift:83-85 | `nil` iff no contact has the id; otherwise the first with it |
| ContactListPlayground.ContactList.ChangeContact | juliasamartseva/Contacts.playground/Contents.swift:87-94 | the four field assignments give the change `Changed` describes |
| ContactListPlayground.ContactList.Remove | juliasamartseva/Contacts.playground/Contents.swift:96-98 | every equal contact is removed, the rest stay in order |
| ContactListPlayground.ChangedSpec | juliasamartseva/Contacts.playground/Contents.swift:87-94 | length and every id are kept; the first contact with the id takes the new name, phone, email and work; the others are unchanged; an unknown id changes nothing |
| ContactListPlayground.ChangeThenFind | juliasamartseva/Contacts.playground/Contents.swift:141-143 | after a change by a present id, looking the id up gives a contact with that id and the new fields |
| ContactListPlayground.ScriptContactsAreValid | juliasamartseva/Contacts.playground/Contents.swift:120-140 | all four contacts the script creates pass validation |
| ContactListPlayground.Script | juliasamartseva/Contacts.playground/Contents.swift:119-158 | after the script the changed name is "Sergey", the first "Emma" is Emma, and the size is 2; a fresh list then has size 1 after one add and 2 after the second |
| ContactListPlayground.RunScript | juliasamartseva/Contacts.playground/Contents.swift:131-158 | the script's steps give the same answers for any three contacts with distinct ids, including sizes 1 and 2 for the fresh list |
| ContactBookModel.ListingCount | alyanovikova/Contacts/Sources/Contacts/Contacts.swift:72-74 | a listing has exactly one element per matching entry |
| ContactBookModel.ListingMembers | alyanovikova/Contacts/Sources/Contacts/Contacts.swift:72-74 | a contact is listed iff it matches and some entry holds it |
| ContactBookModel.ListingDistinct | alyanovikova/Contacts/Sources/Contacts/Contacts.swift:72-74 | under the invariant, no contact is listed twice |
| ContactBookModel.ListedAmongStep | alyanovikova/Contacts/Sources/Contacts/Contacts.swift:72-74 | visiting one more key extends the listing by that key's contact iff it matches |
| ContactBookModel.ListedAmongNothing | alyanovikova/Contacts/Sources/Contacts/Contacts.swift:72-74 | nothing is listed among no keys |
| ContactBookModel.AddKeepsKeysAreIds | alyanovikova/Contacts/Sources/Contacts/Contacts.swift:46-50 | storing a contact under id lastId + 1 keeps the invariant for the advanced counter, does not overwrite an entry, and grows the count by one |
| ContactBookModel.ReplaceKeepsKeysAreIds | alyanovikova/Contacts/Sources/Contacts/Contacts.swift:57-61 | replacing a present entry keeps the count, and keeps the invariant iff the new contact's id is the key |
| ContactBookModel.RemoveKeepsKeysAreIds | alyanovikova/Contacts/Sources/Contacts/Contacts.swift:66-67 | removing a key keeps the invariant |
| ContactBookStore.ContactBook.constructor | alyanovikova/Contacts/Sources/Contacts/Contacts.swift:40-44 | `init(contacts:lastId:)` holds the given dictionary and counter |
| ContactBookStore.ContactBook.Open | alyanovikova/Contacts/Sources/Contacts/Contacts.swift:28-38 | fails exactly on an undecodable file; a missing file gives an empty book with counter 0, which satisfies the invariant; a saved file gives its dictionary and counter |
| ContactBookStore.ContactBook.AddContact | alyanovikova/Contacts/Sources/Contacts/Contacts.swift:46-55 | the counter grows by one and is the new contact's id; the contact carries the given fields and is stored under it; the file holds the book; the invariant is kept, no entry is overwritten and the count grows by one |
| ContactBookStore.ContactBook.UpdateContact | alyanovikova/Contacts/Sources/Contacts/Contacts.swift:57-64 | `noContact` iff the id is not a key, and then nothing changes and nothing is written; otherwise the entry is replaced, the count kept and the file written; the counter and the invariant are kept |
| ContactBookStore.ContactBook.RemoveContact | alyanovikova/Contacts/Sources/Contacts/Contacts.swift:66-70 | the key is absent afterwards and every other entry is unchanged, with no error for an absent key; the file is written; the invariant is kept |
| ContactBookStore.ContactBook.ListContacts | alyanovikova/Contacts/Sources/Contacts/Contacts.swift:72-74 | every listed contact matches and is stored, and every stored matching contact is listed; the listing holds each matching entry once, in some key order |
| ContactBookPlayground.ContactBook.constructor | alyanovikova/contacts.playground/Contents.swift:17-23 | an empty book with counter 0 satisfies the invariant |
| ContactBookPlayground.ContactBook.AddContact | alyanovikova/contacts.playground/Contents.swift:25-31 | the counter grows by one and is the new contact's id, stored under it with the given fields; the invariant is kept and the count grows by one |
| ContactBookPlayground.ContactBook.UpdateContact | alyanovikova/contacts.playground/Contents.swift:33-38 | `noContact` iff the key is absent, and then nothing changes; otherwise the contact is stored under the key with the other keys unchanged; the invariant then holds iff the new contact's id is the key |
| ContactBookPlayground.ContactBook.RemoveContact | alyanovikova/contacts.playground/Contents.swift:40-42 | the key is absent afterwards and the other entries unchanged, with no error for an absent key; the invariant is kept |
| ContactBookPlayground.ContactBook.ListContacts | alyanovikova/contacts.playground/Contents.swift:44-46 | every listed contact matches and is stored, and every stored matching contact is listed; the listing holds each matching entry once |
| ContactBookPlayground.MismatchedUpdateBreaksInvariant | alyanovikova/contacts.playground/Contents.swift:33-38 | storing, under any key of any book, a contact whose id differs from that key breaks the invariant, whatever the counter |
| ContactBookPlayground.PlusCounts | alyanovikova/contacts.playground/Contents.swift:72-86 | in a book of three keys whose phones all start with '+', 3 contacts match, and 2 once the first key is removed |
| ContactBookPlayground.Script | alyanovikova/contacts.playground/Contents.swift:49-86 | the three ids increase, the corrected names are Alya, Julia and Ira, the '+' count is 3 and then 2, and Alya is gone |
| ContactBookPlayground.RunScript | alyanovikova/contacts.playground/Contents.swift:49-86 | the script's steps give ids 1, 2, 3, the corrected names and the counts 3 and 2 for any fields whose remaining phones start with '+' |
| ContactBookPlayground.FillBook | alyanovikova/contacts.playground/Contents.swift:49-70 | three additions and two updates by id give the book holding exactly the three corrected contacts under keys 1, 2 and 3 |
| TaskLists.WithCompletionFrame | juliasamartseva/TodoList/Sources/TodoList/TodoList.swift:33-39 | only the addressed task's flag changes, to the new status; the length, that task's name and description, and every other task stay |
| TaskLists.WithCompletionIdempotent | juliasamartseva/TodoList/Sources/TodoList/TodoList.swift:37 | setting the same flag twice is setting it once |
| TaskLists.WithCompletionLastWins | juliasamartseva/TodoList/Sources/TodoList/TodoList.swift:37 | of two settings of one task's flag, the second wins |
| TaskLists.WithCompletionUnchanged | juliasamartseva/TodoList/Sources/TodoList/TodoList.swift:37 | setting a flag to its current value changes nothing |
| TaskLists.TaskListManager.constructor | juliasamartseva/TodoList/Sources/TodoList/TodoList.swift:15-18 | the list holds the given tasks, and the file is as given |
| TaskLists.TaskListManager.Open | juliasamartseva/TodoList/Sources/TodoList/TodoList.swift:19-26 | fails exactly on an undecodable file; a missing file gives an empty list; a saved file gives its tasks; nothing is written |
| TaskLists.TaskListManager.Add | juliasamartseva/TodoList/Sources/TodoList/TodoList.swift:28-31 | the list becomes old + [task], and the file holds it |
| TaskLists.TaskListManager.ChangeCompletion | juliasamartseva/TodoList/Sources/TodoList/TodoList.swift:33-39 | `invalidIndex` iff the index is at or past the end, and then nothing changes and nothing is written; otherwise only that flag changes and the file holds the list |
| TaskLists.CompletionScenario | juliasamartseva/TodoList/Tests/TodoListTests/TodoListTests.swift:37-51 | after the test's steps, the list and the file it was saved to both hold "Notes" done, then "Hello world" open |
| TodoLists.NewTodo | alyanovikova/PersistenceTask/Sources/PersistenceTask/PersistenceTask.swift:3-11 | the todo holds the given text and status |
| TodoLists.NewTodoIsOpen | alyanovikova/PersistenceTask/Sources/PersistenceTask/PersistenceTask.swift:7-10 | a todo made without a status is not completed |
| TodoLists.WithStatusFrame | alyanovikova/PersistenceTask/Sources/PersistenceTask/PersistenceTask.swift:47-54 | only the addressed todo's flag changes, to the new status; its text and every other todo stay |
| TodoLists.WithStatusIdempotent | alyanovikova/PersistenceTask/Sources/PersistenceTask/PersistenceTask.swift:48 | setting the same status twice is setting it once |
| TodoLists.TodoList.constructor | alyanovikova/PersistenceTask/Sources/PersistenceTask/PersistenceTask.swift:13-16 | the list holds the given todos, and the file is as given |
| TodoLists.TodoList.Open | alyanovikova/PersistenceTask/Sources/PersistenceTask/PersistenceTask.swift:17-36 | fails exactly on an undecodable file; a missing file gives an empty list; a saved file gives its todos in file order |
| TodoLists.TodoList.Add | alyanovikova/PersistenceTask/Sources/PersistenceTask/PersistenceTask.swift:38-45 | the list becomes old + [todo], and the file holds it |
| TodoLists.TodoList.ChangeStatus | alyanovikova/PersistenceTask/Sources/PersistenceTask/PersistenceTask.swift:47-54 | only the addressed flag changes, and the file holds the list |
| TodoLists.WritingScenario | alyanovikova/PersistenceTask/Tests/PersistenceTaskTests/PersistenceTaskTests.swift:43-62 | after the test's steps, the list and the file it was saved to both hold "get some sleep", done, then "buy curd snack", open |
| TodoLists.ReadingScenario | alyanovikova/PersistenceTask/Tests/PersistenceTaskTests/PersistenceTaskTests.swift:21-41 | a file of three open todos loads as exactly those three, in file order |
| Trees.WithChildValues | juliasamartseva/Playgrounds/Closures.swift:15-18 | the node holds the value, and its children are leaves holding the given values, in order |
| Trees.WithChildValuesPreOrder | alyanovikova/playgrounds/TreeAssignment.playground/Contents.swift:15-18 | such a node lists in pre-order as its value followed by the child values |
| Trees.AddNodeSpec | juliasamartseva/Playgrounds/Closures.swift:10-12 | appending a leaf keeps the node's value and its existing children, adds one child, appends the value last in pre-order, and adds one to the node count |
| Trees.PreOrderLength | juliasamartseva/Playgrounds/Closures.swift:2-24 | the pre-order listing is as long as the tree has nodes |
| Trees.MatchingUpToIsFilter | juliasamartseva/Playgrounds/Closures.swift:52-62 | what the children loop has collected after i steps is the filter of the node and the first i subtrees' listings |
| Trees.MatchingUpToAll | juliasamartseva/Playgrounds/Closures.swift:52-62 | after the last child, the loop has collected every matching node in pre-order |
| Trees.MatchingAllIsSize | juliasamartseva/Playgrounds/Closures.swift:52-61 | with an always-true predicate, every node is collected, as many as the tree has |
| Closures.FirstIsPreOrderFirst | juliasamartseva/Playgrounds/Closures.swift:32-42 | `first(where:)` returns the first match of the pre-order listing |
| Closures.FirstAmongIsPreOrderFirst | juliasamartseva/Playgrounds/Closures.swift:35-39 | the loop over the children returns the first match of the forest's listing |
| Closures.FirstSpec | juliasamartseva/Playgrounds/Closures.swift:32-42 | a found node satisfies the predicate and is in the tree, with no matching node before it; `nil` iff no node matches |
| Closures.NodesStartWithFirst | juliasamartseva/Playgrounds/Closures.swift:32-62 | `nodes(where:)` is empty iff `first(where:)` is `nil`, and otherwise starts with its result |
| Closures.NodesRecursive | juliasamartseva/Playgrounds/Closures.swift:52-62 | it appends to the `inout` array exactly the matching nodes, in pre-order |
| Closures.Nodes | juliasamartseva/Playgrounds/Closures.swift:46-50 | the matching nodes in pre-order, each satisfying the predicate and in the tree |
| Closures.SampleTreePreOrder | juliasamartseva/Playgrounds/Closures.swift:88-90 | the sample tree lists as 1, 5, 13, 16, 7, 24 |
| Closures.SampleTreeSearches | juliasamartseva/Playgrounds/Closures.swift:88-119 | on the sample tree, `> 12` finds 13 and `> 50` finds nothing |
| TreeAssignment.FirstSatisfying | alyanovikova/playgrounds/TreeAssignment.playground/Contents.swift:32-42 | the first match of the pre-order listing; a found node satisfies the condition and is in the tree; `nil` iff no node does |
| TreeAssignment.SearchRest | alyanovikova/playgrounds/TreeAssignment.playground/Contents.swift:35-40 | the children loop's search is the first child's result if it has one, else the rest's |
| TreeAssignment.NodesSatisfying | alyanovikova/playgrounds/TreeAssignment.playground/Contents.swift:47-54 | every node satisfying the condition, in pre-order, each in the tree |
| TreeAssignment.NodesStartWithFirstSatisfying | alyanovikova/playgrounds/TreeAssignment.playground/Contents.swift:32-54 | `nodesSatisfying` is empty iff `firstSatisfying` is `nil`, and otherwise starts with its result |
| Students.GroupsAfterAdd | juliasamartseva/Playgrounds/Arrays.swift:12-26 | adding a student of group g appends them to g's members and leaves every other group's members as they were |
| Students.NamedAfterAdd | juliasamartseva/Playgrounds/Arrays.swift:12-18 | after an append, a name already present is found at the same student, and an absent one at the new student if it has that name |
| Arrays.Classroom.constructor | juliasamartseva/Playgrounds/Arrays.swift:9-10 | an empty classroom |
| Arrays.Classroom.Add | juliasamartseva/Playgrounds/Arrays.swift:12-14 | appends the student at the end |
| Arrays.Classroom.StudentNamed | juliasamartseva/Playgrounds/Arrays.swift:16-18 | `nil` iff no student has the name; otherwise one with it, with none before it having it |
| Arrays.Classroom.StudentsOfGroup | juliasamartseva/Playgrounds/Arrays.swift:20-26 | exactly the group's members, in insertion order; the classroom is unchanged |
| Arrays.Script | juliasamartseva/Playgrounds/Arrays.swift:29-48 | "Alla" is found at age 12 in group 1, "Comfd" is not found, and group 1 is Tanya, Tonya and Alla |
| ArraysSelfStudy.Classroom.constructor | alyanovikova/playgrounds/ArraysSelfStudy.playground/Contents.swift:51-52 | an empty classroom |
| ArraysSelfStudy.Classroom.Add | alyanovikova/playgrounds/ArraysSelfStudy.playground/Contents.swift:54-57 | appends the student at the end |
| ArraysSelfStudy.Classroom.StudentWith | alyanovikova/playgrounds/ArraysSelfStudy.playground/Contents.swift:59-67 | the first student with the name; `nil` iff none has it |
| ArraysSelfStudy.Classroom.StudentsOf | alyanovikova/playgrounds/ArraysSelfStudy.playground/Contents.swift:69-78 | exactly the group's members, in order |
| ArraysSelfStudy.Script | alyanovikova/playgrounds/ArraysSelfStudy.playground/Contents.swift:81-93 | group 0 has one member, then group 1 has two, and "alya" is found |
| ArraysSelfStudy.ScriptQueries | alyanovikova/playgrounds/ArraysSelfStudy.playground/Contents.swift:85-93 | for students of groups 0, 1 and 1, the counts are 1 and 2, and the first is found by its name |
| Books.Book.constructor | juliasamartseva/Playgrounds/Books.swift:9-14 | a book with the given fields and no bookmarks |
| Books.Book.AddBookmark | juliasamartseva/Playgrounds/Books.swift:16-22 | the bookmark is appended iff its page is in 0...pageNumber; otherwise nothing changes |
| Books.Book.RemoveBookmark | juliasamartseva/Playgrounds/Books.swift:24-30 | the first equal bookmark is removed; with none, nothing changes |
| Books.AddThenRemove | juliasamartseva/Playgrounds/Books.swift:16-30 | an in-range bookmark added and then removed leaves the same bookmarks, and exactly the old list when it was not there before |
| Books.OutOfRangeNotAdded | juliasamartseva/Playgrounds/Books.swift:17-21 | a bookmark whose page is out of range is not stored |
| Books.NewBookmark | juliasamartseva/Playgrounds/Books.swift:46-50 | `init(book:page:)` makes the bookmark and registers it with the book |
| Books.PageBookmark | juliasamartseva/Playgrounds/Books.swift:52-55 | `init(page:)` makes a bookmark on no book |
| Books.ChangeBook | juliasamartseva/Playgrounds/Books.swift:57-63 | removed from its old book if it had one, pointed at the new book, and added there; when the two books are the same object, both steps act on one list |
| Books.Script | juliasamartseva/Playgrounds/Books.swift:75-90 | the bookmarks end on "First book", "Second book" and "Second book", with 1 and 2 bookmarks per book |
| BookLibrary.Bookmark.constructor | alyanovikova/playgrounds/BookLibrary.playground/Contents.swift:1-13 | a bookmark with the given note, page and position, on no book |
| BookLibrary.FirstEqual | alyanovikova/playgrounds/BookLibrary.playground/Contents.swift:15-22 | the least index of a bookmark equal under `==` (note, page, position, identical book), or none iff no bookmark is equal |
| BookLibrary.Book.constructor | alyanovikova/playgrounds/BookLibrary.playground/Contents.swift:30-33 | a book with the given title and pages and no bookmarks |
| BookLibrary.Book.Add | alyanovikova/playgrounds/BookLibrary.playground/Contents.swift:35-38 | the bookmark is appended without a duplicate check, so the count grows by one, and the bookmark points at this book |
| BookLibrary.Book.Delete | alyanovikova/playgrounds/BookLibrary.playground/Contents.swift:40-44 | the first equal bookmark is removed, or nothing changes when none is equal; the bookmark keeps its book |
| BookLibrary.AddedIsFound | alyanovikova/playgrounds/BookLibrary.playground/Contents.swift:35-44 | a bookmark just added is found, at the latest at its own position |
| BookLibrary.Script | alyanovikova/playgrounds/BookLibrary.playground/Contents.swift:47-60 | the book holds two bookmarks, and both point at it |

## Left out

- File I/O and JSON are not modelled: `makeDefaultURL`, `FileManager`, reading and decoding, `writeJSON(to:)`. The ghost `file` field stands in for the file's contents.
- Write failures are not modelled. Each write is assumed to succeed, so a change followed by a failed write is not modelled.
- `makeDefaultURL` failures are not modelled, including in `init(contacts:lastId:)`.
- Logging through swift-log is left out; it has no effect on state.
- `UUID()` generation is left out, and Swift's synthesised `Equatable` is taken as datatype equality. Ids are passed in by the caller.
- The regular-expression engine is left out. The two patterns are restated as predicates on `seq<char>`.
- Swift `Character` is a grapheme cluster, and Dafny `char` is a code point. The phone and email predicates and `StartsWithPlus` treat each `char` as one character.
- The command-line tool (ContactsCLUtility/main.swift) is argument-parsing glue. It also targets an API that is not in these sources.
- The contact groups (`addGroup`, `members(of:)`) appear only in the package tests; their implementing source is not part of this model.
- Playground printing is left out, and so are `check(where:)`, `test(condition:)`, `Book.read(from:)` and the `array()` demo in ArraysSelfStudy. They only print.
- Weak references and ARC deallocation are left out. A `weak var book` is a plain nullable reference.
- Dictionary iteration order is left nondeterministic. The listing is specified up to the order of keys.
- The Package.swift manifests hold build configuration only.
- ContactBookStore.ContactBook.AddContact: Swift `Int` overflow is a precondition (`lastId < Int.max`) rather than a trap. The same holds for ContactBookPlayground.ContactBook.AddContact. Other `Int` fields are unbounded.
- TaskLists.TaskListManager.ChangeCompletion: a negative index, which the guard lets through and the subscript traps on, is excluded by a precondition.
- TodoLists.TodoList.ChangeStatus: the unguarded subscript becomes the precondition `0 <= index < |todos|`.
- ContactBookModel.ListingMembers: the listing is characterised by membership, count and distinctness rather than by a multiset of dictionary values. Under the invariant these give the same thing.
