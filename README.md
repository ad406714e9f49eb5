# Book catalog: server store and form logic

A Dafny model of the two sequential cores of a small GraphQL book catalog.

**The server's book store** (`main.go`). The GraphQL server keeps its books
in one package-level slice. The resolvers of the `books` and `book` queries
and of the `createBook`, `updateBook` and `deleteBook` mutations are loops
over that slice. Module `BookStore` models the slice as the `seq<Book>`
field of a class `Store`, each resolver as a method with its loop, and
each method against a specification function on the old sequence
(`FirstIndex`, `MaxId`, `NewBook`, `Updated`, `Deleted`). Lemmas prove that
every mutation keeps the store's IDs distinct. They also prove that a new
ID is larger than every stored ID, that an update changes only the
supplied fields of the first matching book, and that a delete then leaves
no book with the deleted ID.

**The form logic of the create and edit views** (`AddBook.js`,
`EditBook.js`). Each view holds a state record `(formData, errors)`.
- `BookForm` defines, once for both views (their code is identical):
  - the field-change handler, which sets one field and blanks that field's error;
  - the required-field validator, which flags a title or author that is
    white space only after `trim()`.
- `JsText` defines ECMAScript's white-space set and `trim`, and proves that
  a string trims to "" exactly when it is all white space.
- `AddBook` and `EditBook` model the submit handler as a method from a
  state to the next state. It also returns the mutation variables it
  sent, or nothing when the form does not validate.
- `EditBook` also models:
  - seeding the form from the fetched book, where null becomes '';
  - choosing what the view shows: loading, then the query's error, then
    "Book not found", then the form.

The mutation is abstract: how it ends is a parameter, `Completed` or
`Rejected`. In the `catch` branch the handler adds the whole-form error to
the `errors` value it closed over. That is the map from before `validate`
ran, so validate's fresh map is overwritten by the old map plus the `form`
message. The model states this.

**Client meets server** (`ClientServer`). Lemmas tie the variables the
views send to what the store does with them:
- Creating through the create view stores exactly what was typed. Its null
  summary becomes "" on the server.
- The edit view sends `summary: null` for an emptied summary, and
  `updateBook` treats null as "not supplied". So a summary that the user
  clears in the edit view stays on the server (`ClearedSummaryIsKept`).
- Submitting an unedited, freshly seeded form leaves the store unchanged.
- "Book not found" is shown exactly when the store has no book with the
  route's ID.

Both views send `summary || null`, so only the empty string becomes null
and a white-space summary is sent as it is (`OrNull`).

## Model

| member | source | states |
|---|---|---|
| BookStore.SampleBooksDistinct | main.go:21-24 | the two sample books have distinct IDs, so the store starts valid |
| BookStore.Store.constructor | main.go:21-24 | the store starts with the two sample books, whose IDs are distinct |
| BookStore.FirstIndex | main.go:55-59 | the result is the first position holding the ID (no earlier book has it), and there is none exactly when no book has the ID |
| BookStore.Find | main.go:52-61 | a book is found exactly when some stored book has the ID, and it is the first stored book with that ID |
| BookStore.Store.AllBooks | main.go:41-46 | the `books` query returns the whole store, in order |
| BookStore.Store.Lookup | main.go:52-61 | with no integer `id` nothing is returned; otherwise the loop returns the first book with that ID, or nothing when there is none |
| BookStore.MaxId | main.go:84-89 | the accumulated maximum is at least 0, at least every stored ID, and is 0 or some stored ID |
| BookStore.NextId | main.go:90 | the new ID is larger than every stored ID and is either 1 or one more than a stored ID, hence exactly the largest stored ID plus 1 (1 on an empty store) |
| BookStore.NewBook | main.go:79-98 | the new book has the next ID, the given title and author, and "" as summary when none is supplied |
| BookStore.Store.CreateBook | main.go:78-102 | the loop computes the next ID; exactly one book is appended after the unchanged old books and returned; distinct IDs stay distinct |
| BookStore.CreatePreservesDistinct | main.go:84-101 | appending the created book keeps IDs distinct, and a lookup of the new ID finds the new book |
| BookStore.Patch | main.go:121-129 | the book keeps its ID; each supplied field takes the new value and each unsupplied field keeps the old one |
| BookStore.Updated | main.go:113-133 | same length and IDs; with no matching book the store is unchanged; otherwise only the first match changes, and only in the supplied fields |
| BookStore.Store.UpdateBook | main.go:113-133 | the store becomes the update specification of the old store; returns the patched book exactly when the ID is found |
| BookStore.UpdatePreservesDistinct | main.go:119-130 | an update keeps the IDs distinct |
| BookStore.NullSummaryKeepsSummary | main.go:117-129 | an update with a null or absent summary keeps the book's old summary |
| BookStore.RemoveAt | main.go:150 | removing position i leaves one fewer book, the others in their order, and the same multiset less the removed book |
| BookStore.Deleted | main.go:141-156 | with no matching book the store is unchanged; otherwise exactly the first match is removed |
| BookStore.Store.DeleteBook | main.go:141-156 | the store becomes the delete specification of the old store; the removed book is returned exactly when the ID is found; distinct IDs stay distinct and the ID is then gone |
| BookStore.DeletePreservesDistinct | main.go:144-153 | deleting keeps IDs distinct and leaves no book with the deleted ID |
| JsText.TrimStartDropsLeadingWhitespace | graphql-books-client/src/components/AddBook.js:61 | trimming the start removes a prefix made only of white space and leaves a string that does not start with white space |
| JsText.TrimEndDropsTrailingWhitespace | graphql-books-client/src/components/AddBook.js:64 | trimming the end removes a suffix made only of white space and leaves a string that does not end with white space |
| JsText.Trim | graphql-books-client/src/components/AddBook.js:61 | `s.trim()` is no longer than s and neither starts nor ends with white space |
| JsText.Blank | graphql-books-client/src/components/EditBook.js:88-93 | `!s.trim()` holds exactly when s is white space only |
| JsText.BlankIffAllWhitespace | graphql-books-client/src/components/AddBook.js:61-66 | `s.trim()` is the empty string exactly when every character of s is ECMAScript white space (the empty string included) |
| BookForm.HandleChange | graphql-books-client/src/components/AddBook.js:43-57 | only the named field takes the value; the error keys stay the same; only the named field's error, if present, becomes ''; nothing changes in the errors when it was not truthy |
| BookForm.ChangeAfterValidate | graphql-books-client/src/components/EditBook.js:70-96 | after validating, a change clears the changed field's error and keeps the other field's error shown |
| BookForm.Validate | graphql-books-client/src/components/AddBook.js:59-69 | key `title` ('Title is required') exactly when the title is blank, key `author` ('Author is required') exactly when the author is blank, no other keys; valid exactly when there are none |
| BookForm.ValidIffFilledIn | graphql-books-client/src/components/EditBook.js:86-96 | the form validates exactly when neither title nor author is white space only |
| BookForm.Validated | graphql-books-client/src/components/AddBook.js:60-67 | the error map is replaced wholesale by validate's fresh map: no `form` entry and no blanked entry survives |
| BookForm.EmptyFormInvalid | graphql-books-client/src/components/AddBook.js:29-34 | the initial empty form fails validation with both required-field messages |
| BookForm.MissingAuthorScenario | graphql-books-client/src/components/AddBook.js:59-69 | title "Dune" with an empty author yields only 'Author is required' and is invalid |
| BookForm.OrNull | graphql-books-client/src/components/AddBook.js:83 | the logical-or fallback to null gives null exactly for ""; a white-space summary is sent verbatim |
| AddBook.CreateVariables | graphql-books-client/src/components/AddBook.js:79-85 | title and author are sent untrimmed; summary is null exactly when empty |
| AddBook.HandleSubmit | graphql-books-client/src/components/AddBook.js:71-93 | `createBook` is called exactly when title and author are non-blank, with the create variables; an invalid form shows validate's errors; a rejected call adds the `form` message to the pre-submit errors |
| EditBook.OrEmpty | graphql-books-client/src/components/EditBook.js:55-57 | the logical-or fallback to '' maps null to '' and keeps a string |
| EditBook.Seed | graphql-books-client/src/components/EditBook.js:52-59 | with a book, each field takes the book's value (null as ''); without data or without a book, the form is unchanged |
| EditBook.Render | graphql-books-client/src/components/EditBook.js:123-125 | loading wins, then the query error, then "Book not found"; the form is shown exactly when not loading, no error, and a book is present |
| EditBook.SeededFormShowsBook | graphql-books-client/src/components/EditBook.js:52-59 | a loaded book is rendered as the form, and the seeded fields are its values |
| EditBook.UpdateVariables | graphql-books-client/src/components/EditBook.js:106-112 | the route's ID and all three current fields are sent, with no diffing; summary is null exactly when empty |
| EditBook.SeededSubmitResendsBook | graphql-books-client/src/components/EditBook.js:106-112 | resubmitting a seeded form sends the book's title and author, and its summary unless it was null or empty |
| EditBook.HandleSubmit | graphql-books-client/src/components/EditBook.js:98-121 | `updateBook` is called exactly when the form validates, with the update variables; a rejected call adds the `form` message to the pre-submit errors |
| ClientServer.QueryData | graphql-books-client/src/components/EditBook.js:50-51 | the query's `book` is null exactly when the store has no book with the ID |
| ClientServer.CreateStoresForm | graphql-books-client/src/components/AddBook.js:79-85 | the create view's variables make the server append the typed title, author and summary ("" included) under a fresh ID, keeping IDs distinct |
| ClientServer.ClearedSummaryIsKept | main.go:117-129 | an edit with an emptied summary writes title and author but keeps the old summary, so a non-empty summary is not cleared |
| ClientServer.FilledEditStoresForm | main.go:119-130 | an edit with a non-empty summary stores the three typed fields under the same ID and changes no other book |
| ClientServer.UnchangedEditIsNoOp | graphql-books-client/src/components/EditBook.js:106-112 | submitting a freshly seeded, unedited form leaves the store unchanged |
| ClientServer.NotFoundIffUnknownId | graphql-books-client/src/components/EditBook.js:123-125 | a loaded edit view shows "Book not found" exactly when no stored book has the ID, and otherwise the form for the first such book |
| ClientServer.DeletedBookNotFound | main.go:141-156 | after deleting an ID from a store with distinct IDs, the edit view for it shows "Book not found" |

## Left out

- The graphql-go schema and type objects (main.go:26-50, 162-165) and the HTTP server with its CORS setup (main.go:167-185): library wiring and network I/O. The resolvers are modelled directly as store methods, and arguments arrive already decoded. A non-null argument is a plain value; a nullable one is an `Option`.
- Concurrency: the Go HTTP server may run resolvers at the same time over the unguarded slice. The model runs them one after another.
- Slice aliasing in `deleteBook`: `append(books[:i], books[i+1:]...)` shifts the tail inside the old backing array. Only a concurrent holder of the old slice could see that, so the store is a value sequence.
- BookStore.NextId: Go's `int` is 64 bits wide and `maxID + 1` would wrap at 2^63 - 1. IDs are unbounded here, because only creations raise the maximum ID, one at a time from 2.
- The Apollo client, its cache, `refetchQueries`, and the `onCompleted` navigation after a mutation (AddBook.js:36-41, EditBook.js:63-68): a foreign asynchronous library. The mutation's result is only its outcome, handed to the submit method.
- React's state setters and re-rendering: a setter call is modelled as the next state, in order. The `disabled={loading}` guard against a second submission and all JSX markup are not modelled.
- `parseInt(id, 10)` (EditBook.js:41): the route's book ID is taken as an integer; a non-numeric ID (NaN) is not modelled.
- `console.error` logging in both submit handlers: output only.
- BookList.js, Navbar.js (with the theme it reads from a ThemeContext file that is not part of this model), App.js and index.js: markup, routing and provider composition.
