/**
  The eight book endpoints: for each, the request it describes and the cache
  tags it provides (reads) or invalidates (writes).
 */
module BooksApi {
  import opened JsValues
  import opened Types
  import opened Api

  datatype Endpoint =
    | GetAllBooks(params: seq<Param>)
    | GetBookById(id: string)
    | GetAvailableBooks
    | GetBooksByGenre(genre: string)
    | CreateBook(bookData: CreateBookRequest)
    | UpdateBook(id: string, update: UpdateBookRequest)
    | DeleteBook(id: string)
    | UpdateBookAvailability(id: string, available: bool)
  {
    /** Built with `builder.mutation` rather than `builder.query`. */
    predicate IsMutation() {
      CreateBook? || UpdateBook? || DeleteBook? || UpdateBookAvailability?
    }
  }

  /** The request descriptor each endpoint's `query` returns; a list query holds the pairs `Api.BuildSearchParams` appends. */
  function RequestOf(e: Endpoint): (r: Request)
    ensures r.verb == GET <==> !e.IsMutation()
    ensures r.url.query.Some? <==> e.GetAllBooks?
    ensures r.body.NoBody? <==> !e.IsMutation() || e.DeleteBook?
    ensures e.GetAllBooks? ==> r.url.query == Some(Kept(e.params))
  {
    match e
    case GetAllBooks(params) => Request(GET, Url("books", Some(Kept(params))), NoBody)
    case GetBookById(id) => Get("books/" + id)
    case GetAvailableBooks => Get("books/available")
    case GetBooksByGenre(genre) => Get("books/genre/" + genre)
    case CreateBook(bookData) => Request(POST, Url("books", None), CreateBookBody(bookData))
    case UpdateBook(id, update) => Request(PUT, Url("books/" + id, None), UpdateBookBody(update))
    case DeleteBook(id) => Request(DELETE, Url("books/" + id, None), NoBody)
    case UpdateBookAvailability(id, available) =>
      Request(PATCH, Url("books/" + id + "/availability", None), AvailabilityBody(available))
  }

  /** `providesTags` of the read endpoints; writes provide nothing. */
  function Provides(e: Endpoint): (tags: seq<Tag>)
    ensures e.IsMutation() <==> tags == []
    ensures e.GetBookById? ==> tags == [IdTag(BookTag, e.id)]
    ensures !e.IsMutation() && !e.GetBookById? ==> tags == [TypeTag(BookTag)]
  {
    match e
    case GetBookById(id) => [IdTag(BookTag, id)]
    case GetAllBooks(_) => [TypeTag(BookTag)]
    case GetAvailableBooks => [TypeTag(BookTag)]
    case GetBooksByGenre(_) => [TypeTag(BookTag)]
    case _ => []
  }

  /** `invalidatesTags` of the write endpoints; reads invalidate nothing. */
  function Invalidates(e: Endpoint): (tags: seq<Tag>)
    ensures !e.IsMutation() <==> tags == []
    ensures e.IsMutation() ==> TypeTag(BookTag) in tags
    ensures forall t :: t in tags ==> t.tagType == BookTag || t == TypeTag(BorrowTag)
  {
    match e
    case CreateBook(_) => [TypeTag(BookTag)]
    case UpdateBook(id, _) => [IdTag(BookTag, id), TypeTag(BookTag), TypeTag(BorrowTag)]
    case DeleteBook(_) => [TypeTag(BookTag), TypeTag(BorrowTag)]
    case UpdateBookAvailability(id, _) => [IdTag(BookTag, id), TypeTag(BookTag)]
    case _ => []
  }

  /**
    The list query always starts with `books?`, is exactly `books?` when no
    parameter survives, and keeps a `false` or `0` filter as `"false"`/`"0"`.
   */
  lemma GetAllBooksHref(params: seq<Param>)
    ensures Href(RequestOf(GetAllBooks(params)).url)[..6] == "books?"
    ensures Href(RequestOf(GetAllBooks(params)).url) == "books?" <==> Kept(params) == []
    ensures Kept([("available", Bool(false))]) == [("available", "false")]
    ensures Kept([("page", Num(0))]) == [("page", "0")]
  {
    HrefWithQuery("books", Kept(params));
    KeptSingle("available", Bool(false));
    KeptSingle("page", Num(0));
  }

  /** `getBookById` requests `books/<id>` and provides only `{Book, id}`. */
  lemma GetBookByIdShape(id: string)
    ensures RequestOf(GetBookById(id)) == Request(GET, Url("books/" + id, None), NoBody)
    ensures Provides(GetBookById(id)) == [IdTag(BookTag, id)]
  {
  }

  /** `getAvailableBooks` and `getBooksByGenre` are GETs of `books/available` and `books/genre/<genre>`. */
  lemma FilteredReadsShape(genre: string)
    ensures RequestOf(GetAvailableBooks) == Get("books/available")
    ensures RequestOf(GetBooksByGenre(genre)) == Get("books/genre/" + genre)
    ensures Provides(GetAvailableBooks) == Provides(GetBooksByGenre(genre)) == [TypeTag(BookTag)]
  {
  }

  /** `createBook` POSTs the body unchanged to `books` and invalidates only `Book`. */
  lemma CreateBookShape(bookData: CreateBookRequest)
    ensures RequestOf(CreateBook(bookData)) == Request(POST, Url("books", None), CreateBookBody(bookData))
    ensures Invalidates(CreateBook(bookData)) == [TypeTag(BookTag)]
  {
  }

  /** `updateBook` PUTs to `books/<id>` and invalidates `{Book, id}`, `Book` and `Borrow`. */
  lemma UpdateBookShape(id: string, update: UpdateBookRequest)
    ensures RequestOf(UpdateBook(id, update)) == Request(PUT, Url("books/" + id, None), UpdateBookBody(update))
    ensures Invalidates(UpdateBook(id, update)) == [IdTag(BookTag, id), TypeTag(BookTag), TypeTag(BorrowTag)]
  {
  }

  /**
    `deleteBook` DELETEs `books/<id>` and invalidates `Book` and `Borrow`;
    `updateBookAvailability` PATCHes `books/<id>/availability` with only
    `available` in the body and invalidates `{Book, id}` and `Book`, not `Borrow`.
   */
  lemma DeleteAndAvailabilityShape(id: string, available: bool)
    ensures RequestOf(DeleteBook(id)) == Request(DELETE, Url("books/" + id, None), NoBody)
    ensures Invalidates(DeleteBook(id)) == [TypeTag(BookTag), TypeTag(BorrowTag)]
    ensures RequestOf(UpdateBookAvailability(id, available)) ==
      Request(PATCH, Url("books/" + id + "/availability", None), AvailabilityBody(available))
    ensures Invalidates(UpdateBookAvailability(id, available)) == [IdTag(BookTag, id), TypeTag(BookTag)]
    ensures TypeTag(BorrowTag) !in Invalidates(UpdateBookAvailability(id, available))
  {
  }
}
