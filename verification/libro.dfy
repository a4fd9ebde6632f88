/** The `Libro` record of the library tutorial: six stored values, a getter and a
    setter for each, and the two availability transitions `loan` and `return_book`. */
module Libro {

  datatype Book = Book(
    title: string,
    isbn: string,
    author: string,
    year: int,
    pages: int,
    available: bool)

  /** The six properties of a book, as named by its getters and setters. */
  datatype Field = Title | Isbn | Author | Year | Pages | Available

  /** A property value: text, a whole number or a flag. */
  datatype Value = Text(text: string) | Number(number: int) | Flag(flag: bool)

  /** True when `v` has the kind of value property `f` holds. */
  predicate Fits(f: Field, v: Value)
  {
    match f
    case Title | Isbn | Author => v.Text?
    case Year | Pages => v.Number?
    case Available => v.Flag?
  }

  /** The getter of property `f`. */
  function Get(b: Book, f: Field): (v: Value)
    ensures Fits(f, v)
  {
    match f
    case Title => Text(b.title)
    case Isbn => Text(b.isbn)
    case Author => Text(b.author)
    case Year => Number(b.year)
    case Pages => Number(b.pages)
    case Available => Flag(b.available)
  }

  /** The setter of property `f` (the isbn included: it is writable too). */
  function Set(b: Book, f: Field, v: Value): (r: Book)
    requires Fits(f, v)
    ensures Get(r, f) == v
    ensures forall g :: g != f ==> Get(r, g) == Get(b, g)
  {
    match f
    case Title => b.(title := v.text)
    case Isbn => b.(isbn := v.text)
    case Author => b.(author := v.text)
    case Year => b.(year := v.number)
    case Pages => b.(pages := v.number)
    case Available => b.(available := v.flag)
  }

  /** Two books are equal exactly when every getter agrees on them. */
  lemma GettersDetermineBook(a: Book, b: Book)
    requires forall f :: Get(a, f) == Get(b, f)
    ensures a == b
  {
    assert Get(a, Title) == Get(b, Title);
    assert Get(a, Isbn) == Get(b, Isbn);
    assert Get(a, Author) == Get(b, Author);
    assert Get(a, Year) == Get(b, Year);
    assert Get(a, Pages) == Get(b, Pages);
    assert Get(a, Available) == Get(b, Available);
  }

  /** The constructor: each getter returns the value it was given. */
  function NewBook(title: string, isbn: string, author: string, year: int, pages: int, available: bool): (r: Book)
    ensures Get(r, Title) == Text(title) && Get(r, Isbn) == Text(isbn) && Get(r, Author) == Text(author)
    ensures Get(r, Year) == Number(year) && Get(r, Pages) == Number(pages)
    ensures Get(r, Available) == Flag(available)
  {
    Book(title, isbn, author, year, pages, available)
  }

  /** Marks the book as lent. Lending a book that is already out changes nothing,
      so lending twice is lending once. */
  function Loan(b: Book): (r: Book)
    ensures !r.available
    ensures forall g :: g != Available ==> Get(r, g) == Get(b, g)
    ensures r == b <==> !b.available
  {
    Set(b, Available, Flag(false))
  }

  /** Marks the book as returned. Returning a book already on the shelf changes
      nothing, so returning twice is returning once. */
  function ReturnBook(b: Book): (r: Book)
    ensures r.available
    ensures forall g :: g != Available ==> Get(r, g) == Get(b, g)
    ensures r == b <==> b.available
  {
    Set(b, Available, Flag(true))
  }

  /** Returning a lent book restores it, and lending a returned book restores it. */
  lemma LoanReturnInverse(b: Book)
    ensures b.available ==> ReturnBook(Loan(b)) == b
    ensures !b.available ==> Loan(ReturnBook(b)) == b
  {
    if b.available {
      forall f ensures Get(ReturnBook(Loan(b)), f) == Get(b, f) {
      }
      GettersDetermineBook(ReturnBook(Loan(b)), b);
    } else {
      forall f ensures Get(Loan(ReturnBook(b)), f) == Get(b, f) {
      }
      GettersDetermineBook(Loan(ReturnBook(b)), b);
    }
  }
}
