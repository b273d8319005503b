/** The book registry of the `Books` playground. A `Book` is an object that
    keeps a private array of bookmarks; a `Bookmark` is a value holding a
    (weak) reference to a book and a page. Two bookmarks are equal when their
    pages are equal and they refer to the identical book (or both to none),
    which is exactly equality of the `Bookmark` datatype below, since a class
    reference compares by identity. */
module Books {
  import opened Seqs

  datatype Bookmark = Bookmark(book: Book?, page: int)

  /** The bookmark list after `addBookmark`: the bookmark is appended when its
      page lies in `0...pageNumber`, both ends included; otherwise the list
      stays as it is. */
  function WithBookmark(bookmarks: seq<Bookmark>, pageNumber: int, bookmark: Bookmark): seq<Bookmark> {
    if bookmark.page < 0 || bookmark.page > pageNumber then bookmarks else bookmarks + [bookmark]
  }

  class Book {
    const name: string
    const pageNumber: int
    const content: string
    const author: string
    var bookmarks: seq<Bookmark>

    /** `init(name:pages:content:author:)`: a book without bookmarks. */
    constructor (name: string, pageNumber: int, content: string, author: string)
      ensures this.name == name && this.pageNumber == pageNumber
      ensures this.content == content && this.author == author
      ensures bookmarks == []
    {
      this.name := name;
      this.pageNumber := pageNumber;
      this.content := content;
      this.author := author;
      bookmarks := [];
    }

    /** `addBookmark(_:)`: append the bookmark unless its page is out of the
        book's range (the message printed then is not modelled). */
    method AddBookmark(bookmark: Bookmark)
      modifies this
      ensures bookmarks == WithBookmark(old(bookmarks), pageNumber, bookmark)
    {
      if 0 <= bookmark.page <= pageNumber {
        bookmarks := bookmarks + [bookmark];
      }
    }

    /** `removeBookmark(_:)`: remove the first equal bookmark; with none, the
        list stays (the message printed then is not modelled). */
    method RemoveBookmark(bookmark: Bookmark)
      modifies this
      ensures bookmarks == RemoveFirst(old(bookmarks), bookmark)
    {
      if bookmark in bookmarks {
        var index := FirstIndex(bookmarks, (y: Bookmark) => y == bookmark);
        if index.Some? {
          bookmarks := RemoveAt(bookmarks, index.value);
        }
      }
    }
  }

  /** A bookmark added in range and then removed leaves the same bookmarks,
      counted with multiplicity; when it was not there before, exactly the old
      list. */
  lemma AddThenRemove(bookmarks: seq<Bookmark>, pageNumber: int, bookmark: Bookmark)
    requires 0 <= bookmark.page <= pageNumber
    ensures WithBookmark(bookmarks, pageNumber, bookmark) == bookmarks + [bookmark]
    ensures multiset(RemoveFirst(WithBookmark(bookmarks, pageNumber, bookmark), bookmark)) == multiset(bookmarks)
    ensures bookmark !in bookmarks ==> RemoveFirst(WithBookmark(bookmarks, pageNumber, bookmark), bookmark) == bookmarks
  {
    var s := bookmarks + [bookmark];
    assert bookmark in s;
    assert s[|bookmarks|] == bookmark;
    if bookmark !in bookmarks {
      var i :| 0 <= i < |s| && s[i] == bookmark && (forall j :: 0 <= j < i ==> s[j] != bookmark) &&
               RemoveFirst(s, bookmark) == s[..i] + s[i + 1..];
      assert i == |bookmarks|;
      assert s[..i] == bookmarks;
    }
  }

  /** A bookmark whose page is out of range is never stored. */
  lemma OutOfRangeNotAdded(bookmarks: seq<Bookmark>, pageNumber: int, bookmark: Bookmark)
    requires bookmark.page < 0 || bookmark.page > pageNumber
    ensures WithBookmark(bookmarks, pageNumber, bookmark) == bookmarks
  {
  }

  /** `init(book:page:)`: a bookmark on `book` at `page`, which registers
      itself with the book (a copy of the value is what the book stores). */
  method NewBookmark(book: Book, page: int) returns (bookmark: Bookmark)
    modifies book
    ensures bookmark == Bookmark(book, page)
    ensures book.bookmarks == WithBookmark(old(book.bookmarks), book.pageNumber, bookmark)
  {
    bookmark := Bookmark(book, page);
    book.AddBookmark(bookmark);
  }

  /** `init(page:)`: a bookmark on no book, registered nowhere. */
  function PageBookmark(page: int): (bookmark: Bookmark)
    ensures bookmark.book == null && bookmark.page == page
  {
    Bookmark(null, page)
  }

  /** `changeBook(to:)`, a mutating method of the value `bookmark`, whose new
      value is `moved`: remove the bookmark from its book if it has one, point
      it at `newBook`, and register it there. When the old and the new book are
      the same object, both steps act on that one list. */
  method ChangeBook(bookmark: Bookmark, newBook: Book) returns (moved: Bookmark)
    modifies newBook, bookmark.book
    ensures moved == Bookmark(newBook, bookmark.page)
    ensures bookmark.book == null ==>
              newBook.bookmarks == WithBookmark(old(newBook.bookmarks), newBook.pageNumber, moved)
    ensures bookmark.book != null && bookmark.book != newBook ==>
              bookmark.book.bookmarks == RemoveFirst(old(bookmark.book.bookmarks), bookmark) &&
              newBook.bookmarks == WithBookmark(old(newBook.bookmarks), newBook.pageNumber, moved)
    ensures bookmark.book == newBook ==>
              newBook.bookmarks ==
                WithBookmark(RemoveFirst(old(newBook.bookmarks), bookmark), newBook.pageNumber, moved)
  {
    if bookmark.book != null {
      bookmark.book.RemoveBookmark(bookmark);
    }
    moved := bookmark.(book := newBook);
    newBook.AddBookmark(moved);
  }

  /** The playground's script: two 100-page books, two bookmarks made on the
      first, one made on no book, then the second and third moved to the
      second book. The first bookmark stays on the first book, the other two
      end on the second, and each book lists the bookmarks that point to it. */
  method Script() returns (firstName: string, secondName: string, thirdName: string,
                           firstCount: nat, secondCount: nat)
    ensures firstName == "First book" && secondName == "Second book" && thirdName == "Second book"
    ensures firstCount == 1 && secondCount == 2
  {
    var book1 := new Book("First book", 100, "Book1 content", "Steve");
    var book2 := new Book("Second book", 100, "Book2 content", "Mark");
    var bookmark1 := NewBookmark(book1, 10);
    var bookmark2 := NewBookmark(book1, 30);
    var bookmark3 := PageBookmark(50);
    assert book1.bookmarks == [bookmark1, bookmark2];
    bookmark2 := ChangeBook(bookmark2, book2);
    assert book1.bookmarks == [bookmark1] by {
      assert bookmark1 != Bookmark(book1, 30);
      assert [bookmark1, Bookmark(book1, 30)][1] == Bookmark(book1, 30);
    }
    bookmark3 := ChangeBook(bookmark3, book2);
    assert book2.bookmarks == [bookmark2, bookmark3];
    firstName := bookmark1.book.name;
    secondName := bookmark2.book.name;
    thirdName := bookmark3.book.name;
    firstCount := |book1.bookmarks|;
    secondCount := |book2.bookmarks|;
  }
}
