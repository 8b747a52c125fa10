/**
  Which cached reads a successful write makes the cache refetch, derived from
  the declared tag tables of both APIs.

  ASSUMPTION: the matching rule below belongs to the data-fetching library and
  is not part of this code. It is taken to be: an invalidated plain tag `T`
  matches every provided tag of type `T`, with or without an id; an
  invalidated `{T, id}` matches only a provided `{T, id}`. When a write's tags
  are invalidated (on success, and possibly also when the server answers
  with an error) is the library's business too and is not modelled. Every
  lemma in this module holds under that assumption only.
 */
module TagInvalidation {
  import opened Api
  import BooksApi
  import BorrowsApi

  /** Any endpoint of either API. */
  datatype Endpoint = BookEndpoint(b: BooksApi.Endpoint) | BorrowEndpoint(r: BorrowsApi.Endpoint)

  function Provides(e: Endpoint): seq<Tag> {
    match e
    case BookEndpoint(b) => BooksApi.Provides(b)
    case BorrowEndpoint(r) => BorrowsApi.Provides(r)
  }

  function Invalidates(e: Endpoint): seq<Tag> {
    match e
    case BookEndpoint(b) => BooksApi.Invalidates(b)
    case BorrowEndpoint(r) => BorrowsApi.Invalidates(r)
  }

  predicate IsRead(e: Endpoint) {
    match e
    case BookEndpoint(b) => !b.IsMutation()
    case BorrowEndpoint(r) => !r.IsMutation()
  }

  /** ASSUMPTION: the library's rule for an invalidated tag matching a provided one. */
  predicate Matches(invalidated: Tag, provided: Tag) {
    match invalidated
    case TypeTag(t) => provided.tagType == t
    case IdTag(t, id) => provided == IdTag(t, id)
  }

  /** A cached entry of `read` is refetched when the tags of `write` are invalidated. */
  predicate Refetches(write: Endpoint, read: Endpoint) {
    exists i, p :: i in Invalidates(write) && p in Provides(read) && Matches(i, p)
  }

  /** The tag type of the one tag every read endpoint provides. */
  function ReadTagType(e: Endpoint): (t: TagType)
    requires IsRead(e)
    ensures |Provides(e)| == 1 && Provides(e)[0].tagType == t
  {
    match e
    case BookEndpoint(_) => BookTag
    case BorrowEndpoint(_) => BorrowTag
  }

  /** Under the assumption, a write refetches a read iff it invalidates the plain tag of the read's type, or the read's exact id tag. */
  lemma RefetchesIff(write: Endpoint, read: Endpoint)
    requires IsRead(read)
    ensures Refetches(write, read) <==>
      TypeTag(ReadTagType(read)) in Invalidates(write) ||
      (Provides(read)[0].IdTag? && Provides(read)[0] in Invalidates(write))
  {
    var p := Provides(read)[0];
    if TypeTag(ReadTagType(read)) in Invalidates(write) {
      assert Matches(TypeTag(ReadTagType(read)), p);
    } else if p.IdTag? && p in Invalidates(write) {
      assert Matches(p, p);
    }
  }

  /** `createBorrow` refetches every read of both APIs: it invalidates both plain tags. */
  lemma CreateBorrowRefetchesEveryRead(borrowData: Types.CreateBorrowRequest, read: Endpoint)
    requires IsRead(read)
    ensures Refetches(BorrowEndpoint(BorrowsApi.CreateBorrow(borrowData)), read)
  {
    RefetchesIff(BorrowEndpoint(BorrowsApi.CreateBorrow(borrowData)), read);
  }

  /** Every book write refetches every book read. */
  lemma BookWriteRefetchesBookReads(write: BooksApi.Endpoint, read: BooksApi.Endpoint)
    requires write.IsMutation() && !read.IsMutation()
    ensures Refetches(BookEndpoint(write), BookEndpoint(read))
  {
    RefetchesIff(BookEndpoint(write), BookEndpoint(read));
  }

  /**
    `createBook` and `updateBookAvailability` leave every borrow read alone;
    `updateBook` and `deleteBook` refetch them all.
   */
  lemma BookWritesAndBorrowReads(write: BooksApi.Endpoint, read: BorrowsApi.Endpoint)
    requires write.IsMutation() && !read.IsMutation()
    ensures Refetches(BookEndpoint(write), BorrowEndpoint(read)) <==> (write.UpdateBook? || write.DeleteBook?)
  {
    RefetchesIff(BookEndpoint(write), BorrowEndpoint(read));
    var p := BorrowsApi.Provides(read)[0];
    if p.IdTag? {
      assert p !in BooksApi.Invalidates(write);
    }
  }

  /**
    The `{Book, id}` tag of `updateBook` adds nothing: the plain `Book` tag
    next to it already covers every book read, so `updateBook` refetches
    exactly what `deleteBook` refetches.
   */
  lemma UpdateBookIdTagRedundant(id: string, other: string, update: Types.UpdateBookRequest, read: Endpoint)
    requires IsRead(read)
    ensures Refetches(BookEndpoint(BooksApi.UpdateBook(id, update)), read) <==>
            Refetches(BookEndpoint(BooksApi.DeleteBook(other)), read)
  {
    RefetchesIff(BookEndpoint(BooksApi.UpdateBook(id, update)), read);
    RefetchesIff(BookEndpoint(BooksApi.DeleteBook(other)), read);
  }

  /** No read is ever refetched by another read. */
  lemma ReadsRefetchNothing(a: Endpoint, b: Endpoint)
    requires IsRead(a)
    ensures !Refetches(a, b)
  {
  }
}
