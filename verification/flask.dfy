/** The Flask service over the shared book list. It has no schema: create checks
    that every key is present, and PUT is a partial update of the keys the body
    carries. */
module Flask {
  import opened Options
  import opened Libro
  import opened Catalogue

  /** A JSON body: each key may be absent. */
  datatype Body = Body(
    titulo: Option<string>,
    isbn: Option<string>,
    autor: Option<string>,
    anio: Option<int>,
    paginas: Option<int>,
    disponible: Option<bool>)

  /** Every key create needs is present. */
  predicate Complete(body: Body)
  {
    && body.titulo.Some? && body.isbn.Some? && body.autor.Some?
    && body.anio.Some? && body.paginas.Some? && body.disponible.Some?
  }

  /** The first required key the body lacks, in the order create checks them. */
  function MissingField(body: Body): (r: Option<string>)
    ensures r.None? <==> Complete(body)
    ensures r == Some("titulo") <==> body.titulo.None?
    ensures r == Some("isbn") <==> body.titulo.Some? && body.isbn.None?
    ensures r == Some("autor") <==> body.titulo.Some? && body.isbn.Some? && body.autor.None?
    ensures r == Some("anio") <==>
      body.titulo.Some? && body.isbn.Some? && body.autor.Some? && body.anio.None?
    ensures r == Some("paginas") <==>
      body.titulo.Some? && body.isbn.Some? && body.autor.Some? && body.anio.Some? && body.paginas.None?
    ensures r == Some("disponible") <==> body.disponible.None? && Complete(body.(disponible := Some(false)))
  {
    if body.titulo.None? then Some("titulo")
    else if body.isbn.None? then Some("isbn")
    else if body.autor.None? then Some("autor")
    else if body.anio.None? then Some("anio")
    else if body.paginas.None? then Some("paginas")
    else if body.disponible.None? then Some("disponible")
    else None
  }

  /** The three example books loaded before the server starts. */
  function SeedBooks(): (r: seq<Book>)
    ensures |r| == 3
    ensures UniqueIsbns(r)
  {
    SampleBooks()
  }

  /** POST /libros: a body lacking a key is refused first, then a duplicate ISBN;
      otherwise the new book is appended. */
  function CreateBook(books: seq<Book>, body: Body): (r: Reply)
    ensures r.status == BadRequest <==> !Complete(body)
    ensures r.status == Conflict <==> Complete(body) && Has(books, body.isbn.value)
    ensures r.status == BadRequest || r.status == Conflict ==> r.books == books && r.shown == None
    ensures r.status != BadRequest && r.status != Conflict ==> r.status == Created
    ensures r.status == Created ==>
      && r.shown.Some?
      && r.books == books + [r.shown.value]
      && r.shown.value == Book(body.titulo.value, body.isbn.value, body.autor.value,
                               body.anio.value, body.paginas.value, body.disponible.value)
    ensures UniqueIsbns(books) ==> UniqueIsbns(r.books)
  {
    if MissingField(body).Some? then Reply(BadRequest, books, None)
    else Insert(books, NewBook(body.titulo.value, body.isbn.value, body.autor.value,
                               body.anio.value, body.paginas.value, body.disponible.value))
  }

  /** PUT /libros/<isbn>: overwrites only the keys the body carries. An `isbn` key
      is not among them. */
  function UpdateBook(books: seq<Book>, isbn: string, body: Body): (r: Reply)
    ensures r.status == NotFound <==> !Has(books, isbn)
    ensures r.status == NotFound ==> r.books == books && r.shown == None
    ensures r.status != NotFound ==> r.status == Ok && |r.books| == |books|
    ensures r.status != NotFound ==>
      exists k ::
        && FirstMatch(books, isbn, k)
        && r.shown == Some(r.books[k])
        && r.books[k].isbn == isbn
        && r.books[k].title == (if body.titulo.Some? then body.titulo.value else books[k].title)
        && r.books[k].author == (if body.autor.Some? then body.autor.value else books[k].author)
        && r.books[k].year == (if body.anio.Some? then body.anio.value else books[k].year)
        && r.books[k].pages == (if body.paginas.Some? then body.paginas.value else books[k].pages)
        && r.books[k].available == (if body.disponible.Some? then body.disponible.value else books[k].available)
        && forall j :: 0 <= j < |books| && j != k ==> r.books[j] == books[j]
    ensures SameIsbns(books, r.books)
  {
    Update(books, isbn, Patch(body.titulo, body.autor, body.anio, body.paginas, body.disponible))
  }

  /** A listing answer: the books shown and the count reported beside them. */
  datatype Listing = Listing(total: nat, libros: seq<Book>)

  /** GET /libros: every book, with its count. */
  function ListBooks(books: seq<Book>): (r: Listing)
    ensures r.total == |books| == |r.libros|
    ensures forall i :: 0 <= i < |books| ==> r.libros[i] == books[i]
  {
    Listing(|books|, books)
  }

  /** GET /libros/disponibles: the available books in list order, with their count,
      which is the number of books minus the lent ones. */
  function AvailableBooks(books: seq<Book>): (r: Listing)
    ensures r.total == |r.libros|
    ensures r.libros == Filter(books, true)
    ensures forall b :: b in r.libros <==> b in books && b.available
    ensures r.total == |books| - |Filter(books, false)|
  {
    FilterPartition(books);
    var shown := Filter(books, true);
    Listing(|shown|, shown)
  }

  /** The requests of the service that change the list. */
  datatype Request =
    | Create(body: Body)
    | Put(isbn: string, body: Body)
    | Delete(isbn: string)
    | Lend(isbn: string)
    | Return(isbn: string)

  function Step(books: seq<Book>, q: Request): Reply
  {
    match q
    case Create(body) => CreateBook(books, body)
    case Put(isbn, body) => UpdateBook(books, isbn, body)
    case Delete(isbn) => Remove(books, isbn)
    case Lend(isbn) => Catalogue.Lend(books, isbn)
    case Return(isbn) => GiveBack(books, isbn)
  }

  /** The list after serving `qs` in order. */
  function Run(books: seq<Book>, qs: seq<Request>): seq<Book>
    decreases |qs|
  {
    if |qs| == 0 then books else Run(Step(books, qs[0]).books, qs[1..])
  }

  /** No request can introduce a second book with an ISBN already present: create
      checks for duplicates and no update path writes the ISBN. */
  lemma {:induction false} RunKeepsUniqueIsbns(books: seq<Book>, qs: seq<Request>)
    requires UniqueIsbns(books)
    ensures UniqueIsbns(Run(books, qs))
    decreases |qs|
  {
    if |qs| > 0 {
      var r := Step(books, qs[0]);
      match qs[0] {
        case Create(_) =>
        case Put(_, _) => SameIsbnsKeepUnique(books, r.books);
        case Delete(_) =>
        case Lend(_) => SameIsbnsKeepUnique(books, r.books);
        case Return(_) => SameIsbnsKeepUnique(books, r.books);
      }
      RunKeepsUniqueIsbns(r.books, qs[1..]);
    }
  }
}
