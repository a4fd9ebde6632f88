/** The FastAPI service over the shared book list. Its request schemas validate
    every body before a handler runs, so their field constraints appear here as
    preconditions. */
module FastApi {
  import opened Options
  import opened Libro
  import opened Catalogue

  /** The create / full-update body. */
  datatype LibroInput = LibroInput(
    titulo: string,
    isbn: string,
    autor: string,
    anio: int,
    paginas: int,
    disponible: bool)

  /** The constraints the create / full-update schema enforces. */
  predicate ValidInput(i: LibroInput)
  {
    && |i.titulo| >= 1
    && |i.isbn| >= 10
    && |i.autor| >= 1
    && 1000 <= i.anio <= 2100
    && i.paginas > 0
  }

  /** A body as the client sends it: `disponible` may be left out. */
  function MakeInput(titulo: string, isbn: string, autor: string, anio: int, paginas: int, disponible: Option<bool>): (r: LibroInput)
    ensures r.titulo == titulo && r.isbn == isbn && r.autor == autor
    ensures r.anio == anio && r.paginas == paginas
    ensures disponible.None? ==> r.disponible
    ensures disponible.Some? ==> r.disponible == disponible.value
  {
    LibroInput(titulo, isbn, autor, anio, paginas, disponible.GetOr(true))
  }

  /** The constraints the partial-update schema enforces: only year and pages are
      checked, and only when present. */
  predicate ValidUpdate(u: Patch)
  {
    && (u.year.Some? ==> 1000 <= u.year.value <= 2100)
    && (u.pages.Some? ==> u.pages.value > 0)
  }

  /** A stored book meets the create schema's constraints. */
  predicate WellFormed(b: Book)
  {
    ValidInput(LibroInput(b.title, b.isbn, b.author, b.year, b.pages, b.available))
  }

  /** The invariant a freshly seeded list has: ISBNs are unique and every book
      meets the create schema. */
  predicate Consistent(books: seq<Book>)
  {
    UniqueIsbns(books) && forall i :: 0 <= i < |books| ==> WellFormed(books[i])
  }

  /** The four example books loaded at start-up: the shared three and "1984". */
  function SeedBooks(): (r: seq<Book>)
    ensures |r| == 4
    ensures Consistent(r)
  {
    var r := SampleBooks() + [Book("1984", "978-0-452-28423-4", "George Orwell", 1949, 328, true)];
    assert forall i, j :: 0 <= i < j < |r| ==> r[i].isbn[6] != r[j].isbn[6];
    r
  }

  /** The start-up hook: appends the example books to the (initially empty) list. */
  function Startup(books: seq<Book>): (r: seq<Book>)
    ensures |r| == |books| + 4
    ensures r[..|books|] == books && r[|books|..] == SeedBooks()
  {
    books + SeedBooks()
  }

  /** POST /libros: refuses an ISBN already present, otherwise appends the new book. */
  function CreateBook(books: seq<Book>, i: LibroInput): (r: Reply)
    requires ValidInput(i)
    ensures r.status == Conflict <==> Has(books, i.isbn)
    ensures r.status == Conflict ==> r.books == books && r.shown == None
    ensures r.status != Conflict ==> r.status == Created
    ensures r.status != Conflict ==>
      && |r.books| == |books| + 1
      && r.shown == Some(r.books[|books|])
      && r.books[..|books|] == books
      && r.books[|books|] == Book(i.titulo, i.isbn, i.autor, i.anio, i.paginas, i.disponible)
    ensures Consistent(books) ==> Consistent(r.books)
  {
    var r := Insert(books, NewBook(i.titulo, i.isbn, i.autor, i.anio, i.paginas, i.disponible));
    assert r.status == Created ==> r.books[..|books|] == books;
    r
  }

  /** PUT /libros/{isbn}: overwrites title, author, year, pages and availability of
      the book found by the path's ISBN; the body's own ISBN is ignored. */
  function ReplaceBook(books: seq<Book>, isbn: string, i: LibroInput): (r: Reply)
    requires ValidInput(i)
    ensures r.status == NotFound <==> !Has(books, isbn)
    ensures r.status == NotFound ==> r.books == books && r.shown == None
    ensures r.status != NotFound ==> r.status == Ok && |r.books| == |books|
    ensures r.status != NotFound ==>
      exists k ::
        && FirstMatch(books, isbn, k)
        && r.shown == Some(r.books[k])
        && r.books[k] == Book(i.titulo, isbn, i.autor, i.anio, i.paginas, i.disponible)
        && forall j :: 0 <= j < |books| && j != k ==> r.books[j] == books[j]
    ensures Consistent(books) ==> Consistent(r.books)
  {
    Update(books, isbn, Patch(Some(i.titulo), Some(i.autor), Some(i.anio), Some(i.paginas), Some(i.disponible)))
  }

  /** PATCH /libros/{isbn}: overwrites only the fields the body carries. */
  function PatchBook(books: seq<Book>, isbn: string, u: Patch): (r: Reply)
    requires ValidUpdate(u)
    ensures r.status == NotFound <==> !Has(books, isbn)
    ensures r.status == NotFound ==> r.books == books && r.shown == None
    ensures r.status != NotFound ==> r.status == Ok && |r.books| == |books|
    ensures r.status != NotFound ==>
      exists k ::
        && FirstMatch(books, isbn, k)
        && r.shown == Some(r.books[k])
        && r.books[k].isbn == isbn
        && r.books[k].title == (if u.title.Some? then u.title.value else books[k].title)
        && r.books[k].author == (if u.author.Some? then u.author.value else books[k].author)
        && r.books[k].year == (if u.year.Some? then u.year.value else books[k].year)
        && r.books[k].pages == (if u.pages.Some? then u.pages.value else books[k].pages)
        && r.books[k].available == (if u.available.Some? then u.available.value else books[k].available)
        && forall j :: 0 <= j < |books| && j != k ==> r.books[j] == books[j]
    ensures UniqueIsbns(books) ==> UniqueIsbns(r.books)
  {
    Update(books, isbn, u)
  }

  /** The partial-update schema as it would have to read for every stored book to
      keep meeting the create schema: a present title or author is non-empty. */
  predicate StrictUpdate(u: Patch)
  {
    && ValidUpdate(u)
    && (u.title.Some? ==> |u.title.value| >= 1)
    && (u.author.Some? ==> |u.author.value| >= 1)
  }

  /** The partial-update schema lets an empty title through: patching a seeded
      book with title "" leaves a book the create schema would refuse. */
  lemma EmptyTitlePatchBreaksConsistency()
    ensures ValidUpdate(Patch(Some(""), None, None, None, None))
    ensures !Consistent(PatchBook(SeedBooks(), "978-0-452-28423-4", Patch(Some(""), None, None, None, None)).books)
  {
    var u := Patch(Some(""), None, None, None, None);
    var r := PatchBook(SeedBooks(), "978-0-452-28423-4", u);
    assert SeedBooks()[3].isbn == "978-0-452-28423-4";
    assert r.status == Ok;
    var k :| FirstMatch(SeedBooks(), "978-0-452-28423-4", k) && r.books[k].title == "";
    assert !WellFormed(r.books[k]);
  }

  /** With the stricter schema, a partial update keeps the list consistent. */
  lemma StrictPatchKeepsConsistency(books: seq<Book>, isbn: string, u: Patch)
    requires Consistent(books) && StrictUpdate(u)
    ensures Consistent(PatchBook(books, isbn, u).books)
  {
    var r := PatchBook(books, isbn, u);
    if r.status != NotFound {
      var k :| FirstMatch(books, isbn, k) && r.books == books[k := ApplyPatch(books[k], u)];
      assert WellFormed(books[k]);
      assert forall j :: 0 <= j < |r.books| && j != k ==> r.books[j] == books[j];
    }
  }

  /** The requests of the service that change the list. */
  datatype Request =
    | Create(input: LibroInput)
    | Replace(isbn: string, input: LibroInput)
    | Modify(isbn: string, patch: Patch)
    | Delete(isbn: string)
    | Lend(isbn: string)
    | Return(isbn: string)

  /** A request that passes schema validation (the partial update under the
      stricter schema). */
  predicate Admissible(q: Request)
  {
    match q
    case Create(i) => ValidInput(i)
    case Replace(_, i) => ValidInput(i)
    case Modify(_, u) => StrictUpdate(u)
    case _ => true
  }

  function Step(books: seq<Book>, q: Request): (r: Reply)
    requires Admissible(q)
  {
    match q
    case Create(i) => CreateBook(books, i)
    case Replace(isbn, i) => ReplaceBook(books, isbn, i)
    case Modify(isbn, u) => PatchBook(books, isbn, u)
    case Delete(isbn) => Remove(books, isbn)
    case Lend(isbn) => Catalogue.Lend(books, isbn)
    case Return(isbn) => GiveBack(books, isbn)
  }

  /** The list after serving `qs` in order. */
  function Run(books: seq<Book>, qs: seq<Request>): seq<Book>
    requires forall k :: 0 <= k < |qs| ==> Admissible(qs[k])
    decreases |qs|
  {
    if |qs| == 0 then books else Run(Step(books, qs[0]).books, qs[1..])
  }

  /** Lending or returning rewrites one book through a setter that only touches
      availability, which the create schema does not constrain. */
  lemma AvailabilityKeepsWellFormed(b: Book, r: Book)
    requires WellFormed(b)
    requires forall g :: g != Available ==> Get(r, g) == Get(b, g)
    ensures WellFormed(r)
  {
    assert Get(r, Title) == Get(b, Title) && Get(r, Author) == Get(b, Author);
    assert Get(r, Isbn) == Get(b, Isbn);
    assert Get(r, Year) == Get(b, Year) && Get(r, Pages) == Get(b, Pages);
  }

  lemma DeleteKeepsConsistency(books: seq<Book>, isbn: string)
    requires Consistent(books)
    ensures Consistent(Remove(books, isbn).books)
  {
    var r := Remove(books, isbn);
    if r.status != NotFound {
      var k :| FirstMatch(books, isbn, k) && r.books == Without(books, k);
      forall j | 0 <= j < |r.books| ensures WellFormed(r.books[j]) {
        if j < k { assert r.books[j] == books[j]; } else { assert r.books[j] == books[j + 1]; }
      }
    }
  }

  lemma LendKeepsConsistency(books: seq<Book>, isbn: string)
    requires Consistent(books)
    ensures Consistent(Catalogue.Lend(books, isbn).books)
  {
    var r := Catalogue.Lend(books, isbn);
    if r.status == Ok {
      var k :| FirstMatch(books, isbn, k) && r.books == books[k := Loan(books[k])];
      AvailabilityKeepsWellFormed(books[k], Loan(books[k]));
    }
  }

  lemma ReturnKeepsConsistency(books: seq<Book>, isbn: string)
    requires Consistent(books)
    ensures Consistent(GiveBack(books, isbn).books)
  {
    var r := GiveBack(books, isbn);
    if r.status == Ok {
      var k :| FirstMatch(books, isbn, k) && r.books == books[k := ReturnBook(books[k])];
      AvailabilityKeepsWellFormed(books[k], ReturnBook(books[k]));
    }
  }

  /** Every admissible request keeps the list consistent. */
  lemma StepKeepsConsistency(books: seq<Book>, q: Request)
    requires Consistent(books) && Admissible(q)
    ensures Consistent(Step(books, q).books)
  {
    match q
    case Create(i) =>
    case Replace(isbn, i) =>
    case Modify(isbn, u) => StrictPatchKeepsConsistency(books, isbn, u);
    case Delete(isbn) => DeleteKeepsConsistency(books, isbn);
    case Lend(isbn) => LendKeepsConsistency(books, isbn);
    case Return(isbn) => ReturnKeepsConsistency(books, isbn);
  }

  /** Starting from the seeded list, any run of admissible requests leaves ISBNs
      unique and every book within the create schema. */
  lemma {:induction false} RunKeepsConsistency(books: seq<Book>, qs: seq<Request>)
    requires Consistent(books)
    requires forall k :: 0 <= k < |qs| ==> Admissible(qs[k])
    ensures Consistent(Run(books, qs))
    decreases |qs|
  {
    if |qs| > 0 {
      StepKeepsConsistency(books, qs[0]);
      RunKeepsConsistency(Step(books, qs[0]).books, qs[1..]);
    }
  }
}
