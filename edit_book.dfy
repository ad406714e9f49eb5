/** The edit view (EditBook.js): the form is seeded from the fetched book,
    what the view shows is chosen from the query's state, and a submission
    sends the `updateBook` mutation for the book in the route. */
module EditBook {
  import opened Optional
  import opened JsText
  import opened BookForm

  /** A book as the `GetBook` query returns it; every GraphQL field is
      nullable. */
  datatype FetchedBook = FetchedBook(id: Option<int>, title: Option<string>, author: Option<string>,
                                     summary: Option<string>)

  /** The query's `data`: its `book` is null when no book has the ID. */
  datatype BookData = BookData(book: Option<FetchedBook>)

  /** The variables of the `UpdateBook` mutation. */
  datatype UpdateVars = UpdateVars(id: int, title: string, author: string, summary: Option<string>)

  /** What the view renders. */
  datatype View = Loading | QueryError(message: string) | NotFound | Editing(book: FetchedBook)

  const UpdateFailed: string := "Failed to update book. Please try again."

  /** `x || ''` on a nullable string. */
  function OrEmpty(x: Option<string>): (r: string)
    ensures x.None? ==> r == ""
    ensures x.Some? ==> r == x.value
  {
    x.GetOr("")
  }

  /** The `onCompleted` handler of the query: with a book, every field of
      the form takes the book's value (null becoming ''); without one the
      form is left as it was. */
  function Seed(fd: FormData, data: Option<BookData>): (r: FormData)
    ensures data.None? || data.value.book.None? ==> r == fd
    ensures data.Some? && data.value.book.Some? ==>
      var b := data.value.book.value;
      forall f :: r.Get(f) == OrEmpty(match f case Title => b.title case Author => b.author case Summary => b.summary)
  {
    if data.Some? && data.value.book.Some? then
      var b := data.value.book.value;
      FormData(OrEmpty(b.title), OrEmpty(b.author), OrEmpty(b.summary))
    else
      fd
  }

  /** The view chosen before the form is rendered: the loading notice, then
      the query's error, then "Book not found", and only then the form. */
  function Render(loading: bool, error: Option<string>, data: Option<BookData>): (v: View)
    ensures loading ==> v == Loading
    ensures !loading && error.Some? ==> v == QueryError(error.value)
    ensures !loading && error.None? && (data.None? || data.value.book.None?) ==> v == NotFound
    ensures v.Editing? <==> !loading && error.None? && data.Some? && data.value.book.Some?
    ensures v.Editing? ==> v.book == data.value.book.value
  {
    if loading then Loading
    else if error.Some? then QueryError(error.value)
    else if data.None? || data.value.book.None? then NotFound
    else Editing(data.value.book.value)
  }

  /** The `variables` object of `handleSubmit`: the route's book ID and all
      three current field values, the summary as null when empty. */
  function UpdateVariables(bookId: int, fd: FormData): (v: UpdateVars)
    ensures v.id == bookId
    ensures v.title == fd.title && v.author == fd.author
    ensures v.summary.None? <==> fd.summary == ""
    ensures v.summary.Some? ==> v.summary.value == fd.summary
  {
    UpdateVars(bookId, fd.title, fd.author, OrNull(fd.summary))
  }

  /** `handleSubmit` on state `st` for the book `bookId` of the route:
      as in the create view, no `updateBook` call unless the form
      validates, and a rejected call adds the whole-form error to the error
      map from before `validate`. */
  method HandleSubmit(bookId: int, st: FormState, outcome: MutationOutcome)
    returns (next: FormState, sent: Option<UpdateVars>)
    ensures sent.Some? <==> !Blank(st.formData.title) && !Blank(st.formData.author)
    ensures sent.Some? ==> sent.value == UpdateVariables(bookId, st.formData)
    ensures next.formData == st.formData
    ensures sent.None? ==> next.errors == Validate(st.formData).errors && next.errors != map[]
    ensures sent.Some? && outcome == Rejected ==> next.errors == st.errors[FormError := UpdateFailed]
    ensures sent.Some? && outcome == Completed ==> next.errors == map[]
  {
    next := Validated(st);
    if !Validate(st.formData).ok {
      sent := None;
      return;
    }
    sent := Some(UpdateVariables(bookId, st.formData));
    if outcome == Rejected {
      next := FormState(st.formData, st.errors[FormError := UpdateFailed]);
    }
  }

  /** Seeding from a book and rendering: the form is shown for that book,
      and its fields hold the book's values. */
  lemma SeededFormShowsBook(fd: FormData, b: FetchedBook)
    ensures Render(false, None, Some(BookData(Some(b)))) == Editing(b)
    ensures Seed(fd, Some(BookData(Some(b)))) == FormData(OrEmpty(b.title), OrEmpty(b.author), OrEmpty(b.summary))
  {
    var r := Seed(fd, Some(BookData(Some(b))));
    assert r.Get(Title) == OrEmpty(b.title);
    assert r.Get(Author) == OrEmpty(b.author);
    assert r.Get(Summary) == OrEmpty(b.summary);
  }

  /** Resubmitting a seeded form unchanged sends the book's own title and
      author back, and its summary unless that was null or empty. */
  lemma SeededSubmitResendsBook(bookId: int, fd: FormData, b: FetchedBook, t: string, a: string)
    requires b.title == Some(t) && b.author == Some(a)
    ensures var v := UpdateVariables(bookId, Seed(fd, Some(BookData(Some(b)))));
      && v.title == t && v.author == a
      && (v.summary.Some? <==> b.summary.Some? && b.summary.value != "")
  {
    SeededFormShowsBook(fd, b);
  }
}
