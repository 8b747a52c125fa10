/**
  The records the client exchanges with the library server: books, borrow
  records, the borrow summary, the request bodies and the response envelopes.
  Field `_id` is written `id`. JavaScript numbers are integers here.
 */
module Types {
  import opened JsValues

  datatype Book = Book(
    id: string,
    title: string,
    author: string,
    genre: string,
    isbn: string,
    description: string,
    copies: int,
    available: bool,
    createdAt: Option<string>,
    updatedAt: Option<string>)

  /** A borrow record embeds its book on some endpoints and names it by id on others. */
  datatype BookRef = Embedded(book: Book) | ById(bookId: string)

  datatype Borrow = Borrow(
    id: string,
    book: BookRef,
    quantity: int,
    dueDate: string,
    createdAt: Option<string>,
    updatedAt: Option<string>)

  datatype BookProjection = BookProjection(id: string, title: string, isbn: string, author: string, genre: string)

  datatype BorrowSummary = BorrowSummary(id: string, book: Option<BookProjection>, totalQuantityBorrowed: int)

  datatype CreateBookRequest = CreateBookRequest(
    title: string,
    author: string,
    genre: string,
    isbn: string,
    description: string,
    copies: int,
    available: Option<bool>)

  /** Every field of an update is optional. */
  datatype UpdateBookRequest = UpdateBookRequest(
    title: Option<string>,
    author: Option<string>,
    genre: Option<string>,
    isbn: Option<string>,
    description: Option<string>,
    copies: Option<int>,
    available: Option<bool>)

  datatype CreateBorrowRequest = CreateBorrowRequest(book: string, quantity: int, dueDate: string)

  /** The pagination part of a collection envelope; `total` is `totalBooks` or `totalBorrows`. */
  datatype Pagination = Pagination(currentPage: int, totalPages: int, total: int, hasNext: bool, hasPrev: bool)

  datatype BooksResponse = BooksResponse(success: bool, data: seq<Book>, pagination: Pagination)

  datatype BookResponse = BookResponse(success: bool, data: Book)

  datatype BorrowsResponse = BorrowsResponse(success: bool, data: seq<Borrow>, pagination: Pagination)

  datatype BorrowSummaryResponse = BorrowSummaryResponse(success: bool, data: seq<BorrowSummary>, count: int)

  /**
    What a failed mutation throws, as far as the pages read it: the server's
    message inside `data`, and the error's own `message`; either may be absent.
   */
  datatype MutationError = MutationError(dataMessage: Option<string>, message: Option<string>)

  /** How a mutation's promise settles. */
  datatype MutationResult = Succeeded | Failed(error: MutationError)

  /** The user-visible effects of a handler: toasts and navigation. */
  datatype Effect = ToastSuccess(text: string) | ToastError(text: string) | Navigate(path: string)
}
