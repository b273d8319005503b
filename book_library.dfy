/** The book library of the `BookLibrary` playground. Here a `Bookmark` is an
    object with a note, a page, a position and a (weak) reference to the book
    it was added to; a `Book` keeps an array of bookmark references. Bookmark
    equality compares note, page and position, and the book by identity. */
module BookLibrary {
  import opened Wrappers
  import opened Seqs

  class Bookmark {
    var book: Book?
    var note: string
    const page: int
    const position: int

    /** `init(note:page:position:)`: a bookmark on no book yet. */
    constructor (note: string, page: int, position: int)
      ensures this.note == note && this.page == page && this.position == position
      ensures book == null
    {
      this.note := note;
      this.page := page;
      this.position := position;
      book := null;
    }
  }

  /** The `==` of `Bookmark`: same note, page and position, and the identical
      book (or both on none). */
  predicate Same(a: Bookmark, b: Bookmark)
    reads a, b
  {
    a.note == b.note && a.page == b.page && a.position == b.position && a.book == b.book
  }

  /** `firstIndex(of:)` under that `==`: the least index holding a bookmark
      equal to `b`, or `None`. */
  function FirstEqual(s: seq<Bookmark>, b: Bookmark): (r: Option<nat>)
    reads s, b
    ensures r.Some? ==> r.value < |s| && Same(s[r.value], b)
    ensures r.Some? ==> forall j :: 0 <= j < r.value ==> !Same(s[j], b)
    ensures r.None? <==> forall j :: 0 <= j < |s| ==> !Same(s[j], b)
  {
    if s == [] then None
    else if Same(s[0], b) then Some(0)
    else match FirstEqual(s[1..], b)
      case None => None
      case Some(i) => Some(i + 1)
  }

  class Book {
    const title: string
    const pages: seq<string>
    var bookmarks: seq<Bookmark>

    /** `init(title:pages:)`: a book without bookmarks. */
    constructor (title: string, pages: seq<string>)
      ensures this.title == title && this.pages == pages && bookmarks == []
    {
      this.title := title;
      this.pages := pages;
      bookmarks := [];
    }

    /** `add(bookmark:)`: append the bookmark, with no check for one already
        there, and point it at this book. */
    method Add(bookmark: Bookmark)
      modifies this, bookmark
      ensures bookmarks == old(bookmarks) + [bookmark]
      ensures |bookmarks| == |old(bookmarks)| + 1
      ensures bookmark.book == this
      ensures bookmark.note == old(bookmark.note)
    {
      bookmarks := bookmarks + [bookmark];
      bookmark.book := this;
    }

    /** `delete(bookmark:)`: remove the first bookmark equal to the argument;
        with none, the list stays. The bookmark keeps its reference to the
        book. */
    method Delete(bookmark: Bookmark)
      modifies this
      ensures FirstEqual(old(bookmarks), bookmark).None? ==> bookmarks == old(bookmarks)
      ensures FirstEqual(old(bookmarks), bookmark).Some? ==>
                bookmarks == RemoveAt(old(bookmarks), FirstEqual(old(bookmarks), bookmark).value)
      ensures bookmark.book == old(bookmark.book)
    {
      var index := FirstEqual(bookmarks, bookmark);
      if index.Some? {
        bookmarks := RemoveAt(bookmarks, index.value);
      }
    }
  }

  /** Every bookmark equals itself, so a bookmark just added is found: the
      search stops at its first equal entry at the latest. */
  lemma AddedIsFound(s: seq<Bookmark>, b: Bookmark)
    ensures FirstEqual(s + [b], b).Some?
    ensures FirstEqual(s + [b], b).value <= |s|
  {
    assert Same((s + [b])[|s|], b);
  }

  /** The playground's script: two bookmarks added to one book; it then holds
      both, and each points at it. */
  method Script() returns (count: nat, firstOnBook: bool, secondOnBook: bool)
    ensures count == 2 && firstOnBook && secondOnBook
  {
    var myBook := new Book("The Lord of the rings", ["once upon a time", "aaaaaAaaa", "the end."]);
    var myBm1 := new Bookmark("so exciting", 0, 1);
    var myBm2 := new Bookmark("I'm in shock", 1, 4);
    myBook.Add(myBm1);
    myBook.Add(myBm2);
    count := |myBook.bookmarks|;
    firstOnBook := myBm1.book == myBook;
    secondOnBook := myBm2.book == myBook;
  }
}
