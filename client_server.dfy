/** What the server's store does with the variables the two views send:
    the create view's null summary is stored as "", so creating is
    lossless, but the edit view's null summary is read by `updateBook` as
    "no summary supplied", so a summary cleared in the edit view is kept. */
module ClientServer {
  import opened Optional
  import opened BookStore
  import opened BookForm
  import AddBook
  import EditBook

  /** A stored book as the `GetBook` query returns it. */
  function Fetched(b: Book): EditBook.FetchedBook {
    EditBook.FetchedBook(Some(b.id), Some(b.title), Some(b.author), Some(b.summary))
  }

  /** The `data` of the `GetBook` query for ID `id` on store `s`. */
  function QueryData(s: seq<Book>, id: int): (d: EditBook.BookData)
    ensures d.book.None? <==> Find(s, id).None?
  {
    EditBook.BookData(match Find(s, id) case None => None case Some(b) => Some(Fetched(b)))
  }

  /** The store after the server runs `createBook` with the create view's
      variables. */
  function CreatedFrom(s: seq<Book>, v: AddBook.CreateVars): seq<Book> {
    s + [NewBook(s, v.title, v.author, v.summary)]
  }

  /** The store after the server runs `updateBook` with the edit view's
      variables: title and author are always supplied, the summary only
      when it is not null. */
  function UpdatedFrom(s: seq<Book>, v: EditBook.UpdateVars): seq<Book> {
    Updated(s, v.id, Some(v.title), Some(v.author), v.summary)
  }

  /** Creating through the create view stores exactly what was typed, the
      empty summary included, under a fresh ID, at the end of the store. */
  lemma CreateStoresForm(s: seq<Book>, fd: FormData)
    requires DistinctIds(s)
    ensures var r := CreatedFrom(s, AddBook.CreateVariables(fd));
      && |r| == |s| + 1 && r[..|s|] == s
      && r[|s|] == Book(NextId(s), fd.title, fd.author, fd.summary)
      && DistinctIds(r)
  {
    var v := AddBook.CreateVariables(fd);
    CreatePreservesDistinct(s, v.title, v.author, v.summary);
    var r := CreatedFrom(s, v);
    assert r[..|s|] == s;
  }

  /** The mismatch between the views and the server: an edit that empties
      the summary sends null, `updateBook` keeps the old summary, and so a
      non-empty summary is not cleared while title and author are
      written. */
  lemma ClearedSummaryIsKept(s: seq<Book>, bookId: int, fd: FormData)
    requires fd.summary == ""
    requires FirstIndex(s, bookId).Some?
    ensures var i := FirstIndex(s, bookId).value;
      var r := UpdatedFrom(s, EditBook.UpdateVariables(bookId, fd));
      && r[i].summary == s[i].summary
      && r[i].title == fd.title && r[i].author == fd.author
      && (s[i].summary != "" ==> r[i].summary != fd.summary)
  {
    var v := EditBook.UpdateVariables(bookId, fd);
    assert v.summary == None;
    NullSummaryKeepsSummary(s, bookId, Some(v.title), Some(v.author));
  }

  /** An edit with a non-empty summary writes all three fields as typed
      and leaves the ID and every other book alone. */
  lemma FilledEditStoresForm(s: seq<Book>, bookId: int, fd: FormData)
    requires fd.summary != ""
    requires FirstIndex(s, bookId).Some?
    ensures var i := FirstIndex(s, bookId).value;
      var r := UpdatedFrom(s, EditBook.UpdateVariables(bookId, fd));
      && r[i] == Book(bookId, fd.title, fd.author, fd.summary)
      && forall j :: 0 <= j < |s| && j != i ==> r[j] == s[j]
  {
    var v := EditBook.UpdateVariables(bookId, fd);
    assert v.summary == Some(fd.summary);
  }

  /** Opening a book in the edit view and submitting the seeded form
      without typing leaves the store as it was. */
  lemma UnchangedEditIsNoOp(s: seq<Book>, bookId: int, fd: FormData)
    requires FirstIndex(s, bookId).Some?
    ensures var seeded := EditBook.Seed(fd, Some(QueryData(s, bookId)));
      UpdatedFrom(s, EditBook.UpdateVariables(bookId, seeded)) == s
  {
    var i := FirstIndex(s, bookId).value;
    var b := s[i];
    assert QueryData(s, bookId) == EditBook.BookData(Some(Fetched(b)));
    EditBook.SeededFormShowsBook(fd, Fetched(b));
    var seeded := EditBook.Seed(fd, Some(QueryData(s, bookId)));
    assert seeded == FormData(b.title, b.author, b.summary);
    var r := UpdatedFrom(s, EditBook.UpdateVariables(bookId, seeded));
    assert r[i] == b;
    assert forall j :: 0 <= j < |s| ==> r[j] == s[j];
  }

  /** The edit view shows "Book not found" for a loaded query exactly when
      the store holds no book with the route's ID, and the form otherwise. */
  lemma NotFoundIffUnknownId(s: seq<Book>, bookId: int)
    ensures EditBook.Render(false, None, Some(QueryData(s, bookId))) == EditBook.NotFound
            <==> FirstIndex(s, bookId).None?
    ensures FirstIndex(s, bookId).Some? ==>
            EditBook.Render(false, None, Some(QueryData(s, bookId)))
            == EditBook.Editing(Fetched(s[FirstIndex(s, bookId).value]))
  {
    var d := QueryData(s, bookId);
    if FirstIndex(s, bookId).Some? {
      assert d.book == Some(Fetched(s[FirstIndex(s, bookId).value]));
    }
  }

  /** After a deletion the edit view for that ID shows "Book not found",
      provided the IDs were distinct. */
  lemma DeletedBookNotFound(s: seq<Book>, bookId: int)
    requires DistinctIds(s)
    ensures EditBook.Render(false, None, Some(QueryData(Deleted(s, bookId), bookId))) == EditBook.NotFound
  {
    DeletePreservesDistinct(s, bookId);
    NotFoundIffUnknownId(Deleted(s, bookId), bookId);
  }
}
