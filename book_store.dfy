/** The in-memory book store of the GraphQL server (main.go): the resolvers
    of the `books` and `book` queries and of the `createBook`, `updateBook`
    and `deleteBook` mutations, run sequentially over one package-level
    slice of books. */
module BookStore {
  import opened Optional

  /** One stored book (the Go `Book` struct). */
  datatype Book = Book(id: int, title: string, author: string, summary: string)

  /** The store's invariant: no two stored books share an ID. */
  predicate DistinctIds(s: seq<Book>) {
    forall i, j :: 0 <= i < j < |s| ==> s[i].id != s[j].id
  }

  /** The two books the store starts with. */
  function SampleBooks(): seq<Book> {
    [ Book(1, "1984", "George Orwell",
           "A dystopian novel set in a totalitarian regime where critical thought is suppressed."),
      Book(2, "Brave New World", "Aldous Huxley",
           "A futuristic society where humans are genetically engineered and conditioned to serve societal stability.") ]
  }

  lemma SampleBooksDistinct()
    ensures DistinctIds(SampleBooks()) && |SampleBooks()| == 2
  {
  }

  /** The position of the first book whose ID is `id`, if any: the index
      at which every `for i, book := range books` search stops. */
  function FirstIndex(s: seq<Book>, id: int): (r: Option<nat>)
    ensures r.Some? ==> r.value < |s| && s[r.value].id == id
    ensures r.Some? ==> forall j :: 0 <= j < r.value ==> s[j].id != id
    ensures r.None? <==> forall j :: 0 <= j < |s| ==> s[j].id != id
  {
    if s == [] then None
    else if s[0].id == id then Some(0)
    else match FirstIndex(s[1..], id)
      case None => None
      case Some(k) => Some(k + 1)
  }

  /** A search that found `id` first at position `i` agrees with FirstIndex. */
  lemma FirstIndexAt(s: seq<Book>, id: int, i: nat)
    requires i < |s| && s[i].id == id
    requires forall j :: 0 <= j < i ==> s[j].id != id
    ensures FirstIndex(s, id) == Some(i)
  {
  }

  /** The first book with ID `id`, or nothing. */
  function Find(s: seq<Book>, id: int): (r: Option<Book>)
    ensures r.Some? <==> exists j :: 0 <= j < |s| && s[j].id == id
    ensures r.Some? ==> r.value.id == id && r.value in s
    ensures r.Some? ==> exists j :: 0 <= j < |s| && s[j] == r.value && forall k :: 0 <= k < j ==> s[k].id != id
  {
    match FirstIndex(s, id)
    case None => None
    case Some(i) => Some(s[i])
  }

  /** The largest ID among `s`, but never below 0: the `maxID` that
      `createBook` accumulates from an initial 0. */
  function MaxId(s: seq<Book>): (m: int)
    ensures 0 <= m
    ensures forall j :: 0 <= j < |s| ==> s[j].id <= m
    ensures m == 0 || exists j :: 0 <= j < |s| && s[j].id == m
  {
    if s == [] then 0
    else
      var m0 := MaxId(s[..|s| - 1]);
      if s[|s| - 1].id > m0 then s[|s| - 1].id else m0
  }

  /** The ID that `createBook` gives a new book. */
  function NextId(s: seq<Book>): (n: int)
    ensures 1 <= n
    ensures s == [] ==> n == 1
    ensures forall j :: 0 <= j < |s| ==> s[j].id < n
    ensures n == 1 || exists j :: 0 <= j < |s| && s[j].id == n - 1
  {
    MaxId(s) + 1
  }

  /** The book that `createBook` appends. A missing summary argument fails
      the Go type assertion and yields the empty string. */
  function NewBook(s: seq<Book>, title: string, author: string, summary: Option<string>): (b: Book)
    ensures b.id == NextId(s)
    ensures b.title == title && b.author == author
    ensures b.summary == (if summary.Some? then summary.value else "")
  {
    Book(NextId(s), title, author, summary.GetOr(""))
  }

  /** A book with the supplied fields replaced and the others kept. */
  function Patch(b: Book, title: Option<string>, author: Option<string>, summary: Option<string>): (r: Book)
    ensures r.id == b.id
    ensures r.title == (if title.Some? then title.value else b.title)
    ensures r.author == (if author.Some? then author.value else b.author)
    ensures r.summary == (if summary.Some? then summary.value else b.summary)
  {
    Book(b.id, title.GetOr(b.title), author.GetOr(b.author), summary.GetOr(b.summary))
  }

  /** The store after `updateBook`: only the first book with ID `id` is
      patched, and only in the supplied fields; nothing changes when no
      book has that ID. */
  function Updated(s: seq<Book>, id: int, title: Option<string>, author: Option<string>,
                   summary: Option<string>): (r: seq<Book>)
    ensures |r| == |s|
    ensures forall j :: 0 <= j < |s| ==> r[j].id == s[j].id
    ensures FirstIndex(s, id).None? ==> r == s
    ensures FirstIndex(s, id).Some? ==>
      var i := FirstIndex(s, id).value;
      && (forall j :: 0 <= j < |s| && j != i ==> r[j] == s[j])
      && r[i].title == (if title.Some? then title.value else s[i].title)
      && r[i].author == (if author.Some? then author.value else s[i].author)
      && r[i].summary == (if summary.Some? then summary.value else s[i].summary)
  {
    match FirstIndex(s, id)
    case None => s
    case Some(i) => s[i := Patch(s[i], title, author, summary)]
  }

  /** The sequence without its element at position `i`, the others in order
      (Go's `append(books[:i], books[i+1:]...)`). */
  function RemoveAt(s: seq<Book>, i: nat): (r: seq<Book>)
    requires i < |s|
    ensures |r| == |s| - 1
    ensures forall j :: 0 <= j < i ==> r[j] == s[j]
    ensures forall j :: i <= j < |r| ==> r[j] == s[j + 1]
    ensures multiset(r) + multiset{s[i]} == multiset(s)
  {
    assert s == s[..i] + [s[i]] + s[i + 1..];
    s[..i] + s[i + 1..]
  }

  /** The store after `deleteBook`: the first book with ID `id` removed. */
  function Deleted(s: seq<Book>, id: int): (r: seq<Book>)
    ensures FirstIndex(s, id).None? ==> r == s
    ensures FirstIndex(s, id).Some? ==> r == RemoveAt(s, FirstIndex(s, id).value)
  {
    match FirstIndex(s, id)
    case None => s
    case Some(i) => RemoveAt(s, i)
  }

  /** Creating a book keeps the IDs distinct, and the new book is the one
      a lookup by its ID finds. */
  lemma CreatePreservesDistinct(s: seq<Book>, title: string, author: string, summary: Option<string>)
    ensures DistinctIds(s) ==> DistinctIds(s + [NewBook(s, title, author, summary)])
    ensures Find(s + [NewBook(s, title, author, summary)], NextId(s)) == Some(NewBook(s, title, author, summary))
  {
    var b := NewBook(s, title, author, summary);
    var t := s + [b];
    forall j | 0 <= j < |s| ensures t[j].id != b.id {
      assert t[j] == s[j];
    }
    FirstIndexAt(t, b.id, |s|);
  }

  /** Updating never changes an ID, so it keeps the IDs distinct. */
  lemma UpdatePreservesDistinct(s: seq<Book>, id: int, title: Option<string>, author: Option<string>,
                                summary: Option<string>)
    ensures DistinctIds(s) ==> DistinctIds(Updated(s, id, title, author, summary))
  {
  }

  /** Deleting keeps the IDs distinct and, because they are distinct,
      leaves no book with the deleted ID. */
  lemma DeletePreservesDistinct(s: seq<Book>, id: int)
    ensures DistinctIds(s) ==> DistinctIds(Deleted(s, id))
    ensures DistinctIds(s) ==> forall j :: 0 <= j < |Deleted(s, id)| ==> Deleted(s, id)[j].id != id
  {
    var r := Deleted(s, id);
    if !DistinctIds(s) {
      return;
    }
    match FirstIndex(s, id)
    case None =>
    case Some(i) =>
      forall a, b | 0 <= a < b < |r| ensures r[a].id != r[b].id {
        var a' := if a < i then a else a + 1;
        var b' := if b < i then b else b + 1;
        assert r[a] == s[a'] && r[b] == s[b'] && a' < b';
      }
      forall j | 0 <= j < |r| ensures r[j].id != id {
        var j' := if j < i then j else j + 1;
        assert r[j] == s[j'] && j' != i;
      }
  }

  /** An update with no summary argument (null or absent) keeps whatever
      summary the book had. */
  lemma NullSummaryKeepsSummary(s: seq<Book>, id: int, title: Option<string>, author: Option<string>)
    requires FirstIndex(s, id).Some?
    ensures Updated(s, id, title, author, None)[FirstIndex(s, id).value].summary
            == s[FirstIndex(s, id).value].summary
  {
  }

  /** The server's store: the package-level `books` slice, updated in place
      by the mutation resolvers. */
  class Store {
    var books: seq<Book>

    constructor ()
      ensures books == SampleBooks()
      ensures DistinctIds(books)
    {
      books := SampleBooks();
    }

    /** The `books` query: every stored book, in order. */
    method AllBooks() returns (r: seq<Book>)
      ensures r == books
    {
      r := books;
    }

    /** The `book(id)` query. An `id` argument that is not an integer
        (absent or null) yields nothing; otherwise the first book with that
        ID, or nothing. */
    method Lookup(id: Option<int>) returns (r: Option<Book>)
      ensures id.None? ==> r.None?
      ensures id.Some? ==> r == Find(books, id.value)
    {
      if id.None? {
        return None;
      }
      var i := 0;
      while i < |books|
        invariant 0 <= i <= |books|
        invariant forall j :: 0 <= j < i ==> books[j].id != id.value
      {
        if books[i].id == id.value {
          FirstIndexAt(books, id.value, i);
          return Some(books[i]);
        }
        i := i + 1;
      }
      return None;
    }

    /** The `createBook` mutation: append a book whose ID is one more than
        the largest stored ID (1 on an empty store). */
    method CreateBook(title: string, author: string, summary: Option<string>) returns (created: Book)
      modifies this
      ensures created == NewBook(old(books), title, author, summary)
      ensures forall j :: 0 <= j < |old(books)| ==> old(books)[j].id < created.id
      ensures books == old(books) + [created]
      ensures old(DistinctIds(books)) ==> DistinctIds(books)
    {
      var maxId := 0;
      var i := 0;
      while i < |books|
        invariant 0 <= i <= |books|
        invariant maxId == MaxId(books[..i])
      {
        assert books[..i + 1][..i] == books[..i];
        if books[i].id > maxId {
          maxId := books[i].id;
        }
        i := i + 1;
      }
      assert books[..i] == books;
      var newId := maxId + 1;
      created := Book(newId, title, author, summary.GetOr(""));
      CreatePreservesDistinct(books, title, author, summary);
      books := books + [created];
    }

    /** The `updateBook` mutation: patch the supplied fields of the first
        book with ID `id` and return it, or return nothing and change
        nothing when no book has that ID. */
    method UpdateBook(id: int, title: Option<string>, author: Option<string>, summary: Option<string>)
      returns (r: Option<Book>)
      modifies this
      ensures books == Updated(old(books), id, title, author, summary)
      ensures r.None? <==> FirstIndex(old(books), id).None?
      ensures r.Some? ==> r.value == books[FirstIndex(old(books), id).value] && r.value.id == id
      ensures old(DistinctIds(books)) ==> DistinctIds(books)
    {
      var i := 0;
      while i < |books|
        invariant 0 <= i <= |books|
        invariant books == old(books)
        invariant forall j :: 0 <= j < i ==> books[j].id != id
      {
        if books[i].id == id {
          FirstIndexAt(books, id, i);
          UpdatePreservesDistinct(books, id, title, author, summary);
          var b := books[i];
          if title.Some? {
            b := b.(title := title.value);
          }
          if author.Some? {
            b := b.(author := author.value);
          }
          if summary.Some? {
            b := b.(summary := summary.value);
          }
          books := books[i := b];
          return Some(books[i]);
        }
        i := i + 1;
      }
      return None;
    }

    /** The `deleteBook` mutation: remove the first book with ID `id` and
        return it, or return nothing and change nothing. */
    method DeleteBook(id: int) returns (r: Option<Book>)
      modifies this
      ensures books == Deleted(old(books), id)
      ensures r.None? <==> FirstIndex(old(books), id).None?
      ensures r.Some? ==> r.value == old(books)[FirstIndex(old(books), id).value] && r.value.id == id
      ensures r.Some? ==> |books| == |old(books)| - 1 && multiset(books) + multiset{r.value} == multiset(old(books))
      ensures old(DistinctIds(books)) ==> DistinctIds(books) && forall j :: 0 <= j < |books| ==> books[j].id != id
    {
      var i := 0;
      while i < |books|
        invariant 0 <= i <= |books|
        invariant books == old(books)
        invariant forall j :: 0 <= j < i ==> books[j].id != id
      {
        if books[i].id == id {
          FirstIndexAt(books, id, i);
          DeletePreservesDistinct(books, id);
          var deleted := books[i];
          books := books[..i] + books[i + 1..];
          return Some(deleted);
        }
        i := i + 1;
      }
      DeletePreservesDistinct(books, id);
      return None;
    }
  }
}
