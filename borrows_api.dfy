/**
  The six borrow endpoints: for each, the request it describes and the cache
  tags it provides (reads) or invalidates (the one write).
 */
module BorrowsApi {
  import opened JsValues
  import opened Types
  import opened Api

  datatype Endpoint =
    | GetAllBorrows(params: seq<Param>)
    | CreateBorrow(borrowData: CreateBorrowRequest)
    | GetBorrowSummary
    | GetOverdueBooks
    | GetTotalBorrowedForBook(bookId: string)
    | GetBorrowStatistics
  {
    /** Built with `builder.mutation` rather than `builder.query`. */
    predicate IsMutation() {
      CreateBorrow?
    }
  }

  /** The request descriptor each endpoint's `query` returns; a list query holds the pairs `Api.BuildSearchParams` appends. */
  function RequestOf(e: Endpoint): (r: Request)
    ensures r.verb == GET <==> !e.IsMutation()
    ensures r.url.query.Some? <==> e.GetAllBorrows?
    ensures r.body.NoBody? <==> !e.IsMutation()
    ensures e.GetAllBorrows? ==> r.url.query == Some(Kept(e.params))
  {
    match e
    case GetAllBorrows(params) => Request(GET, Url("borrows", Some(Kept(params))), NoBody)
    case CreateBorrow(borrowData) => Request(POST, Url("borrows", None), CreateBorrowBody(borrowData))
    case GetBorrowSummary => Get("borrows/summary")
    case GetOverdueBooks => Get("borrows/overdue")
    case GetTotalBorrowedForBook(bookId) => Get("borrows/book/" + bookId + "/total")
    case GetBorrowStatistics => Get("borrows/statistics")
  }

  /** `providesTags` of the read endpoints; the write provides nothing. */
  function Provides(e: Endpoint): (tags: seq<Tag>)
    ensures e.IsMutation() <==> tags == []
    ensures e.GetTotalBorrowedForBook? ==> tags == [IdTag(BorrowTag, e.bookId)]
    ensures !e.IsMutation() && !e.GetTotalBorrowedForBook? ==> tags == [TypeTag(BorrowTag)]
  {
    match e
    case GetTotalBorrowedForBook(bookId) => [IdTag(BorrowTag, bookId)]
    case CreateBorrow(_) => []
    case _ => [TypeTag(BorrowTag)]
  }

  /** `invalidatesTags`: only `createBorrow` has any, and none is id-specific. */
  function Invalidates(e: Endpoint): (tags: seq<Tag>)
    ensures !e.IsMutation() <==> tags == []
    ensures forall t :: t in tags ==> t.TypeTag?
  {
    match e
    case CreateBorrow(_) => [TypeTag(BorrowTag), TypeTag(BookTag)]
    case _ => []
  }

  /** The list query always starts with `borrows?` and is exactly `borrows?` when nothing survives. */
  lemma GetAllBorrowsHref(params: seq<Param>)
    ensures Href(RequestOf(GetAllBorrows(params)).url)[..8] == "borrows?"
    ensures Href(RequestOf(GetAllBorrows(params)).url) == "borrows?" <==> Kept(params) == []
  {
    HrefWithQuery("borrows", Kept(params));
  }

  /** `createBorrow` POSTs the request unchanged to `borrows` and invalidates `Borrow` and `Book`. */
  lemma CreateBorrowShape(borrowData: CreateBorrowRequest)
    ensures RequestOf(CreateBorrow(borrowData)) == Request(POST, Url("borrows", None), CreateBorrowBody(borrowData))
    ensures Invalidates(CreateBorrow(borrowData)) == [TypeTag(BorrowTag), TypeTag(BookTag)]
  {
  }

  /** `getTotalBorrowedForBook` requests `borrows/book/<bookId>/total` and provides only `{Borrow, bookId}`. */
  lemma TotalBorrowedShape(bookId: string)
    ensures RequestOf(GetTotalBorrowedForBook(bookId)).url == Url("borrows/book/" + bookId + "/total", None)
    ensures Provides(GetTotalBorrowedForBook(bookId)) == [IdTag(BorrowTag, bookId)]
  {
  }

  /** The three argument-less reads use fixed paths and provide only the plain `Borrow` tag. */
  lemma FixedReadsShape()
    ensures RequestOf(GetBorrowSummary) == Get("borrows/summary")
    ensures RequestOf(GetOverdueBooks) == Get("borrows/overdue")
    ensures RequestOf(GetBorrowStatistics) == Get("borrows/statistics")
    ensures Provides(GetBorrowSummary) == Provides(GetOverdueBooks) == Provides(GetBorrowStatistics) == [TypeTag(BorrowTag)]
  {
  }
}
