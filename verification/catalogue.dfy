/** The in-memory book list shared by the FastAPI and Flask services: lookup by
    ISBN, insertion, field-wise update, removal, lending, returning and the two
    availability filters. The list is passed in and handed back explicitly; every
    operation answers with a status, the list after the call, and the book it
    reports to the client, if any. */
module Catalogue {
  import opened Options
  import opened Libro

  /** Outcome of a request. `Conflict` is a refusal caused by the list's current
      state (duplicate ISBN, book already lent or already back); `BadRequest` is a
      refusal caused by a malformed body. */
  datatype Status = Ok | Created | NotFound | Conflict | BadRequest

  /** The HTTP status code each outcome is reported with. */
  function Code(s: Status): (c: int)
    ensures s == Ok <==> c == 200
    ensures s == Created <==> c == 201
    ensures s == NotFound <==> c == 404
    ensures s.Conflict? || s.BadRequest? <==> c == 400
  {
    match s
    case Ok => 200
    case Created => 201
    case NotFound => 404
    case Conflict => 400
    case BadRequest => 400
  }

  datatype Reply = Reply(status: Status, books: seq<Book>, shown: Option<Book>)

  /** Some book in the list carries `isbn`. */
  predicate Has(books: seq<Book>, isbn: string)
  {
    exists j :: 0 <= j < |books| && books[j].isbn == isbn
  }

  /** Position `i` holds the first book carrying `isbn`. */
  predicate FirstMatch(books: seq<Book>, isbn: string, i: int)
  {
    && 0 <= i < |books|
    && books[i].isbn == isbn
    && forall j :: 0 <= j < i ==> books[j].isbn != isbn
  }

  /** No two books in the list share an ISBN. */
  predicate UniqueIsbns(books: seq<Book>)
  {
    forall i, j :: 0 <= i < j < |books| ==> books[i].isbn != books[j].isbn
  }

  /** The two lists carry the same ISBNs at the same positions. */
  predicate SameIsbns(a: seq<Book>, b: seq<Book>)
  {
    |a| == |b| && forall i :: 0 <= i < |a| ==> a[i].isbn == b[i].isbn
  }

  lemma SameIsbnsKeepUnique(a: seq<Book>, b: seq<Book>)
    requires SameIsbns(a, b) && UniqueIsbns(a)
    ensures UniqueIsbns(b)
  {
  }

  /** Position of the first book carrying `isbn`: the scan of the lookup loop. */
  function IndexOf(books: seq<Book>, isbn: string): (r: Option<nat>)
    ensures r.Some? ==> FirstMatch(books, isbn, r.value)
    ensures r.None? <==> !Has(books, isbn)
  {
    if |books| == 0 then None
    else if books[0].isbn == isbn then Some(0)
    else match IndexOf(books[1..], isbn)
      case None =>
        assert forall j :: 1 <= j < |books| ==> books[j] == books[1..][j - 1];
        None
      case Some(i) => Some(i + 1)
  }

  /** `buscar_libro_por_isbn`: the first book carrying `isbn`, or None. */
  function Lookup(books: seq<Book>, isbn: string): (r: Option<Book>)
    ensures r.None? <==> forall b :: b in books ==> b.isbn != isbn
    ensures r.Some? ==> exists i :: FirstMatch(books, isbn, i) && books[i] == r.value
  {
    match IndexOf(books, isbn)
    case None => None
    case Some(i) => Some(books[i])
  }

  /** GET of one book: the first book carrying `isbn`, or NotFound. */
  function Fetch(books: seq<Book>, isbn: string): (r: Reply)
    ensures r.books == books
    ensures r.status == NotFound <==> !Has(books, isbn)
    ensures r.status == NotFound ==> r.shown == None
    ensures r.status != NotFound ==> r.status == Ok && r.shown == Lookup(books, isbn)
  {
    match Lookup(books, isbn)
    case None => Reply(NotFound, books, None)
    case Some(b) => Reply(Ok, books, Some(b))
  }

  /** The duplicate check and append common to both services' create. */
  function Insert(books: seq<Book>, b: Book): (r: Reply)
    ensures r.status == Conflict <==> Has(books, b.isbn)
    ensures r.status == Conflict ==> r.books == books && r.shown == None
    ensures r.status != Conflict ==> r.status == Created && r.books == books + [b] && r.shown == Some(b)
    ensures UniqueIsbns(books) ==> UniqueIsbns(r.books)
  {
    if Lookup(books, b.isbn).Some? then Reply(Conflict, books, None)
    else
      assert forall j :: 0 <= j < |books| ==> books[j] in books;
      Reply(Created, books + [b], Some(b))
  }

  /** The list with position `i` taken out; the other books keep their order. */
  function Without(books: seq<Book>, i: nat): (r: seq<Book>)
    requires i < |books|
    ensures |r| == |books| - 1
    ensures forall j :: 0 <= j < i ==> r[j] == books[j]
    ensures forall j :: i <= j < |r| ==> r[j] == books[j + 1]
    ensures multiset(r) + multiset{books[i]} == multiset(books)
    ensures UniqueIsbns(books) ==> UniqueIsbns(r) && !Has(r, books[i].isbn)
  {
    assert books == books[..i] + [books[i]] + books[i + 1..];
    books[..i] + books[i + 1..]
  }

  /** DELETE: removes the first book carrying `isbn`; the others keep their order. */
  function Remove(books: seq<Book>, isbn: string): (r: Reply)
    ensures r.shown == None
    ensures r.status == NotFound <==> !Has(books, isbn)
    ensures r.status == NotFound ==> r.books == books
    ensures r.status != NotFound ==> r.status == Ok
    ensures r.status != NotFound ==>
      exists i :: FirstMatch(books, isbn, i) && r.books == Without(books, i)
    ensures UniqueIsbns(books) ==> UniqueIsbns(r.books) && !Has(r.books, isbn)
  {
    match IndexOf(books, isbn)
    case None => Reply(NotFound, books, None)
    case Some(i) => Reply(Ok, Without(books, i), None)
  }

  /** POST .../prestar: lends the first book carrying `isbn`. */
  function Lend(books: seq<Book>, isbn: string): (r: Reply)
    ensures r.status == NotFound <==> !Has(books, isbn)
    ensures r.status == Conflict <==> Lookup(books, isbn).Some? && !Lookup(books, isbn).value.available
    ensures r.status == Ok || r.status == NotFound || r.status == Conflict
    ensures r.status != Ok ==> r.books == books && r.shown == None
    ensures r.status == Ok ==>
      exists i ::
        && FirstMatch(books, isbn, i)
        && books[i].available
        && r.books == books[i := Loan(books[i])]
        && r.shown == Some(r.books[i])
    ensures SameIsbns(books, r.books)
  {
    match IndexOf(books, isbn)
    case None => Reply(NotFound, books, None)
    case Some(i) =>
      if !books[i].available then Reply(Conflict, books, None)
      else Reply(Ok, books[i := Loan(books[i])], Some(Loan(books[i])))
  }

  /** POST .../devolver: returns the first book carrying `isbn`. */
  function GiveBack(books: seq<Book>, isbn: string): (r: Reply)
    ensures r.status == NotFound <==> !Has(books, isbn)
    ensures r.status == Conflict <==> Lookup(books, isbn).Some? && Lookup(books, isbn).value.available
    ensures r.status == Ok || r.status == NotFound || r.status == Conflict
    ensures r.status != Ok ==> r.books == books && r.shown == None
    ensures r.status == Ok ==>
      exists i ::
        && FirstMatch(books, isbn, i)
        && !books[i].available
        && r.books == books[i := ReturnBook(books[i])]
        && r.shown == Some(r.books[i])
    ensures SameIsbns(books, r.books)
  {
    match IndexOf(books, isbn)
    case None => Reply(NotFound, books, None)
    case Some(i) =>
      if books[i].available then Reply(Conflict, books, None)
      else Reply(Ok, books[i := ReturnBook(books[i])], Some(ReturnBook(books[i])))
  }

  /** A field-wise update: each present value overwrites its property. The ISBN is
      not among the fields either service lets an update write. */
  datatype Patch = Patch(
    title: Option<string>,
    author: Option<string>,
    year: Option<int>,
    pages: Option<int>,
    available: Option<bool>)

  /** Writes the present fields through the setters, one after the other. */
  function ApplyPatch(b: Book, p: Patch): (r: Book)
    ensures r.isbn == b.isbn
    ensures r.title == p.title.GetOr(b.title) && r.author == p.author.GetOr(b.author)
    ensures r.year == p.year.GetOr(b.year) && r.pages == p.pages.GetOr(b.pages)
    ensures r.available == p.available.GetOr(b.available)
  {
    var b1 := if p.title.Some? then Set(b, Title, Text(p.title.value)) else b;
    var b2 := if p.author.Some? then Set(b1, Author, Text(p.author.value)) else b1;
    var b3 := if p.year.Some? then Set(b2, Year, Number(p.year.value)) else b2;
    var b4 := if p.pages.Some? then Set(b3, Pages, Number(p.pages.value)) else b3;
    if p.available.Some? then Set(b4, Available, Flag(p.available.value)) else b4
  }

  /** Applies `p` to the first book carrying `isbn`; nothing else in the list moves. */
  function Update(books: seq<Book>, isbn: string, p: Patch): (r: Reply)
    ensures r.status == NotFound <==> !Has(books, isbn)
    ensures r.status == NotFound ==> r.books == books && r.shown == None
    ensures r.status != NotFound ==> r.status == Ok
    ensures r.status != NotFound ==>
      exists i ::
        && FirstMatch(books, isbn, i)
        && r.books == books[i := ApplyPatch(books[i], p)]
        && r.shown == Some(r.books[i])
    ensures SameIsbns(books, r.books)
  {
    match IndexOf(books, isbn)
    case None => Reply(NotFound, books, None)
    case Some(i) =>
      var b := ApplyPatch(books[i], p);
      Reply(Ok, books[i := b], Some(b))
  }

  /** The books whose availability is `available`, in list order: the
      "disponibles" filter for true and the "prestados" filter for false. */
  function Filter(books: seq<Book>, available: bool): (r: seq<Book>)
    ensures forall b :: b in r <==> b in books && b.available == available
    ensures |r| <= |books|
  {
    if |books| == 0 then []
    else
      var last := books[|books| - 1];
      assert books == books[..|books| - 1] + [last];
      Filter(books[..|books| - 1], available) + (if last.available == available then [last] else [])
  }

  /** Filtering keeps relative order: the filter of a concatenation is the
      concatenation of the filters. */
  lemma {:induction false} FilterAppend(a: seq<Book>, b: seq<Book>, available: bool)
    ensures Filter(a + b, available) == Filter(a, available) + Filter(b, available)
    decreases |b|
  {
    if |b| == 0 {
      assert a + b == a;
    } else {
      var b' := b[..|b| - 1];
      assert (a + b)[..|a + b| - 1] == a + b';
      FilterAppend(a, b', available);
    }
  }

  /** The available and lent filters split the list: every book lands in exactly
      one of them, as often as it occurs in the list. */
  lemma {:induction false} FilterPartition(books: seq<Book>)
    ensures multiset(Filter(books, true)) + multiset(Filter(books, false)) == multiset(books)
    ensures |Filter(books, true)| + |Filter(books, false)| == |books|
    decreases |books|
  {
    if |books| > 0 {
      var init := books[..|books| - 1];
      assert books == init + [books[|books| - 1]];
      FilterPartition(init);
    }
  }

  /** The three example books both services load at start-up. */
  function SampleBooks(): (r: seq<Book>)
    ensures |r| == 3
    ensures UniqueIsbns(r)
  {
    var r := [
      Book("Cien Años de Soledad", "978-0-307-47472-3", "Gabriel García Márquez", 1967, 417, true),
      Book("Don Quijote de la Mancha", "978-0-06-093434-7", "Miguel de Cervantes", 1605, 863, true),
      Book("El Principito", "978-0-15-601219-1", "Antoine de Saint-Exupéry", 1943, 96, false)];
    assert forall i, j :: 0 <= i < j < |r| ==> r[i].isbn[6] != r[j].isbn[6];
    r
  }
}
