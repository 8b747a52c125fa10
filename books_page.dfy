/**
  The book list page: its filter and pagination state, the arguments it
  passes to `getAllBooks`, the borrow-button rule, and the delete handler.
 */
module BooksPage {
  import opened JsValues
  import opened Types
  import opened Api
  import BooksApi

  /** `limit` is fixed. */
  const PageSize: int := 10

  /** `searchTerm || undefined`. */
  function SearchArg(searchTerm: string): (v: ParamValue)
    ensures v == Undefined <==> searchTerm == ""
    ensures v != Undefined ==> v == Str(searchTerm)
  {
    if searchTerm == "" then Undefined else Str(searchTerm)
  }

  /** `genreFilter !== "all" ? genreFilter : undefined`. */
  function GenreArg(genreFilter: string): (v: ParamValue)
    ensures v == Undefined <==> genreFilter == "all"
    ensures v != Undefined ==> v == Str(genreFilter)
  {
    if genreFilter != "all" then Str(genreFilter) else Undefined
  }

  /** `availabilityFilter !== "all" ? availabilityFilter === "true" : undefined`. */
  function AvailableArg(availabilityFilter: string): (v: ParamValue)
    ensures v == Undefined <==> availabilityFilter == "all"
    ensures v == Bool(true) <==> availabilityFilter == "true"
    ensures v == Bool(false) <==> availabilityFilter != "all" && availabilityFilter != "true"
  {
    if availabilityFilter != "all" then Bool(availabilityFilter == "true") else Undefined
  }

  /** The params object of the list query, in the order its keys are written. */
  function ListParams(searchTerm: string, genreFilter: string, availabilityFilter: string, page: int): seq<Param> {
    [("page", Num(page)),
     ("limit", Num(PageSize)),
     ("search", SearchArg(searchTerm)),
     ("genre", GenreArg(genreFilter)),
     ("available", AvailableArg(availabilityFilter))]
  }

  /** The borrow button is disabled for an unavailable book or one with no copies. */
  predicate BorrowDisabled(book: Book) {
    !book.available || book.copies == 0
  }

  /** `error?.data?.message || error?.message || "Failed to delete book"`. */
  function DeleteErrorMessage(error: MutationError): (msg: string)
    ensures msg != ""
    ensures error.dataMessage.Some? && error.dataMessage.value != "" ==> msg == error.dataMessage.value
    ensures (error.dataMessage.None? || error.dataMessage.value == "") && error.message.Some? && error.message.value != ""
      ==> msg == error.message.value
    ensures (error.dataMessage.None? || error.dataMessage.value == "") && (error.message.None? || error.message.value == "")
      ==> msg == "Failed to delete book"
  {
    OrElse(error.dataMessage, OrElse(error.message, "Failed to delete book"))
  }

  /** The page's state: three filters, the page number and the book awaiting delete confirmation. */
  class BooksPage {
    var searchTerm: string
    var genreFilter: string
    var availabilityFilter: string
    var page: int
    var deleteBookId: Option<string>

    constructor ()
      ensures searchTerm == "" && genreFilter == "all" && availabilityFilter == "all"
      ensures page == 1 && deleteBookId == None
    {
      searchTerm, genreFilter, availabilityFilter := "", "all", "all";
      page, deleteBookId := 1, None;
    }

    /** The query string of the list request the page makes in its current state. */
    function QueryString(): (pairs: seq<Pair>)
      reads this
      ensures pairs == ListQueryPairs(searchTerm, genreFilter, availabilityFilter, page)
      ensures |pairs| >= 2
    {
      ListQuery(searchTerm, genreFilter, availabilityFilter, page);
      Kept(ListParams(searchTerm, genreFilter, availabilityFilter, page))
    }

    method SetSearchTerm(value: string)
      modifies this
      ensures searchTerm == value
      ensures genreFilter == old(genreFilter) && availabilityFilter == old(availabilityFilter)
      ensures page == old(page) && deleteBookId == old(deleteBookId)
      ensures QueryString()[..2] == old(QueryString())[..2]
    {
      searchTerm := value;
    }

    method SetGenreFilter(value: string)
      modifies this
      ensures genreFilter == value
      ensures searchTerm == old(searchTerm) && availabilityFilter == old(availabilityFilter)
      ensures page == old(page) && deleteBookId == old(deleteBookId)
      ensures QueryString()[..2] == old(QueryString())[..2]
    {
      genreFilter := value;
    }

    method SetAvailabilityFilter(value: string)
      modifies this
      ensures availabilityFilter == value
      ensures searchTerm == old(searchTerm) && genreFilter == old(genreFilter)
      ensures page == old(page) && deleteBookId == old(deleteBookId)
      ensures QueryString()[..2] == old(QueryString())[..2]
    {
      availabilityFilter := value;
    }

    /** A click on Previous; the button is disabled unless the server reports a previous page. */
    method ClickPrevious(pagination: Pagination)
      modifies this
      ensures page == if pagination.hasPrev then old(page) - 1 else old(page)
      ensures searchTerm == old(searchTerm) && genreFilter == old(genreFilter)
      ensures availabilityFilter == old(availabilityFilter) && deleteBookId == old(deleteBookId)
    {
      if pagination.hasPrev {
        page := page - 1;
      }
    }

    /** A click on Next; the button is disabled unless the server reports a next page. */
    method ClickNext(pagination: Pagination)
      modifies this
      ensures page == if pagination.hasNext then old(page) + 1 else old(page)
      ensures searchTerm == old(searchTerm) && genreFilter == old(genreFilter)
      ensures availabilityFilter == old(availabilityFilter) && deleteBookId == old(deleteBookId)
    {
      if pagination.hasNext {
        page := page + 1;
      }
    }

    /** The trash button of a row records the book to delete. */
    method OpenDeleteDialog(id: string)
      modifies this
      ensures deleteBookId == Some(id)
      ensures searchTerm == old(searchTerm) && genreFilter == old(genreFilter)
      ensures availabilityFilter == old(availabilityFilter) && page == old(page)
    {
      deleteBookId := Some(id);
    }

    method CancelDelete()
      modifies this
      ensures deleteBookId == None
      ensures searchTerm == old(searchTerm) && genreFilter == old(genreFilter)
      ensures availabilityFilter == old(availabilityFilter) && page == old(page)
    {
      deleteBookId := None;
    }

    /**
      `handleDelete(id)`: calls `deleteBook(id)`; on success clears the
      pending id and shows a success toast, on failure keeps it and shows
      the error message.
     */
    method HandleDelete(id: string, result: MutationResult) returns (sent: BooksApi.Endpoint, effects: seq<Effect>)
      modifies this
      ensures sent == BooksApi.DeleteBook(id)
      ensures result.Succeeded? ==> deleteBookId == None && effects == [ToastSuccess("Book deleted successfully")]
      ensures result.Failed? ==>
        deleteBookId == old(deleteBookId) && effects == [ToastError(DeleteErrorMessage(result.error))]
      ensures searchTerm == old(searchTerm) && genreFilter == old(genreFilter)
      ensures availabilityFilter == old(availabilityFilter) && page == old(page)
    {
      sent := BooksApi.DeleteBook(id);
      match result
      case Succeeded =>
        effects := [ToastSuccess("Book deleted successfully")];
        deleteBookId := None;
      case Failed(error) =>
        effects := [ToastError(DeleteErrorMessage(error))];
    }
  }

  lemma PageSizeText()
    ensures IntToString(PageSize) == "10"
  {
    assert NatToString(10) == NatToString(1) + [DigitChar(0)];
  }

  /**
    The query string the list page sends, written out: `page` and `limit=10`
    always, then `search` when the search text is non-empty, `genre` when the
    genre filter is neither "all" nor empty, and `available` ("true" or
    "false") when the availability filter is not "all".
   */
  function ListQueryPairs(searchTerm: string, genreFilter: string, availabilityFilter: string, page: int): seq<Pair> {
    [("page", IntToString(page)), ("limit", "10")]
    + (if searchTerm != "" then [("search", searchTerm)] else [])
    + (if genreFilter != "all" && genreFilter != "" then [("genre", genreFilter)] else [])
    + (if availabilityFilter != "all" then [("available", if availabilityFilter == "true" then "true" else "false")] else [])
  }

  /** The builder turns the page's params object into exactly that query string. */
  lemma ListQuery(searchTerm: string, genreFilter: string, availabilityFilter: string, page: int)
    ensures Kept(ListParams(searchTerm, genreFilter, availabilityFilter, page)) ==
      ListQueryPairs(searchTerm, genreFilter, availabilityFilter, page)
  {
    var ps := ListParams(searchTerm, genreFilter, availabilityFilter, page);
    KeptOfFive(ps[0], ps[1], ps[2], ps[3], ps[4]);
    assert ps == [ps[0], ps[1], ps[2], ps[3], ps[4]];
    KeptSingle("page", Num(page));
    KeptSingle("limit", Num(PageSize));
    PageSizeText();
    SearchPiece(searchTerm);
    GenrePiece(genreFilter);
    AvailablePiece(availabilityFilter);
  }

  lemma SearchPiece(searchTerm: string)
    ensures Kept([("search", SearchArg(searchTerm))]) == if searchTerm != "" then [("search", searchTerm)] else []
  {
    KeptSingle("search", SearchArg(searchTerm));
  }

  lemma GenrePiece(genreFilter: string)
    ensures Kept([("genre", GenreArg(genreFilter))]) ==
      if genreFilter != "all" && genreFilter != "" then [("genre", genreFilter)] else []
  {
    KeptSingle("genre", GenreArg(genreFilter));
  }

  lemma AvailablePiece(availabilityFilter: string)
    ensures Kept([("available", AvailableArg(availabilityFilter))]) ==
      if availabilityFilter != "all" then [("available", if availabilityFilter == "true" then "true" else "false")] else []
  {
    KeptSingle("available", AvailableArg(availabilityFilter));
  }

  lemma KeptOfFive(a: Param, b: Param, c: Param, d: Param, e: Param)
    ensures Kept([a, b, c, d, e]) == Kept([a]) + Kept([b]) + Kept([c]) + Kept([d]) + Kept([e])
  {
    assert [a, b, c, d, e] == [a, b, c, d] + [e];
    assert [a, b, c, d] == [a, b, c] + [d];
    assert [a, b, c] == [a, b] + [c];
    assert [a, b] == [a] + [b];
    KeptAppend([a, b, c, d], [e]);
    KeptAppend([a, b, c], [d]);
    KeptAppend([a, b], [c]);
    KeptAppend([a], [b]);
  }
}
