# Book library client: request descriptors and page rules

This project models the client of a small book library in Dafny and proves
what that client promises. The client lists, creates, edits and deletes books,
and records borrows. The model covers the rules it applies before anything
reaches the server:

- **Endpoint descriptors** of the book API (eight endpoints) and the borrow
  API (six endpoints). For each endpoint the model gives the HTTP method, the
  path template, the body and the cache tags it provides or invalidates. The
  list endpoints build their query string with a loop that appends into a
  mutable `URLSearchParams` buffer. Here that loop is a `method` over a `class`
  buffer, proved against the function `Kept`.
- **Cache invalidation** across both APIs: which cached reads the invalidated tags of a
  write refetch. The library decides this; the model states the library's
  matching rule as an explicit ASSUMPTION (module `TagInvalidation`).
- **The book list page** (`BooksPage`). It holds the filter, page and
  pending-delete state as a class. It maps the filters to the list query,
  steps through pages, decides when to disable the borrow button and handles
  a delete.
- **The borrow page** (`BorrowBook`). `handleSubmit` is an ordered chain of
  early-return checks. Its per-field update can raise a warning. The page
  also has a quantity-input coercion, a submit-button rule and a view choice.
- **The create-book form** (`CreateBook`): the zod schema with its messages,
  the default values, the copies-input coercion and what a submit does.
- **The edit-book form** (`EditBook`): the initial record, the population
  from the loaded book, the one-field update, the required-field check, the
  update request and the view choice.

Shared modules:

- `JsValues` holds the JavaScript value semantics the rules rely on:
  `String(n)`, base-10 `parseInt`, `parseInt(v) || fallback` and
  `a || b` on optional strings.
- `Types` holds the records of `src/types/index.ts`.
- `Api` holds methods, tags, URLs, requests and the shared query-string builder.

Side effects are returned as values. Toasts and navigation become a list of
`Effect`s, and the request a handler sends is an endpoint value. The settled
result of a mutation and the current instant are parameters.

## Model

| member | source | states |
|---|---|---|
| JsValues.IntToString | src/redux/api/booksApi.ts:25 | `String(n)` of an integer is non-empty. It starts with `-` exactly when `n` is negative, and is all digits otherwise |
| JsValues.NatToString | src/redux/api/booksApi.ts:25 | The decimal text of a natural number is non-empty and all digits. It is one digit long exactly when the number is below 10 |
| JsValues.TrimStart | src/pages/BorrowBook.tsx:198 | `parseInt` keeps a suffix of the text, dropping only leading white space: everything dropped is white space, and what remains does not start with white space |
| JsValues.ParseInt | src/pages/BorrowBook.tsx:198 | `parseInt` is NaN exactly when, after the white space, there is nothing, or a character that is neither a sign nor a digit, or a sign not followed by a digit |
| JsValues.ParseIntOr | src/pages/BorrowBook.tsx:198 | `parseInt(s)` or else `fallback` gives the fallback for NaN and for 0, and the parsed integer otherwise (negatives included) |
| JsValues.OrElse | src/pages/CreateBook.tsx:72 | `message` or else `fallback` gives the message when it is present and non-empty, and the fallback otherwise |
| JsValues.DigitsValueOfNatToString | src/redux/api/booksApi.ts:25 | The digits that `String` writes for a natural number have that number as their value |
| JsValues.ParseIntOfRendered | src/pages/BorrowBook.tsx:198 | Round trip: `parseInt` of `String(n)`, followed by any text that does not start with a digit, is `n` |
| JsValues.IntToStringInjective | src/redux/api/booksApi.ts:25 | Distinct integers render to distinct query values |
| JsValues.ParseIntOrRendered | src/pages/EditBook.tsx:170 | The coercion gives the fallback for the empty text and for "0", and gives back every other integer from its text |
| Api.Get | src/redux/api/booksApi.ts:38-41 | A `query: () => 'path'` endpoint is a GET of exactly that path, with no query string and no body |
| Api.Render | src/redux/api/booksApi.ts:25 | `String(value)`: a string is unchanged, a boolean becomes "true" or "false", and a number its decimal text |
| Api.SearchParams.constructor | src/redux/api/booksApi.ts:22 | A new `URLSearchParams` buffer is empty |
| Api.SearchParams.Append | src/redux/api/booksApi.ts:25 | `append` adds one pair at the end and keeps the earlier ones |
| Api.BuildSearchParams | src/redux/api/booksApi.ts:21-27 | The loop over the params' entries leaves exactly `Kept(params)` in the buffer, so `RequestOf` of either list endpoint carries the loop's result. A loop invariant ties each prefix of the entries to its kept pairs. The loop of `getAllBorrows` (borrowsApi.ts lines 19-27) is the same code |
| Api.KeptAppend | src/redux/api/booksApi.ts:23-26 | The pairs kept from two runs of entries are those of the first followed by those of the second, so the entry order is kept |
| Api.KeptCons | src/redux/api/booksApi.ts:23-26 | The pairs of the first entry come before those of the rest |
| Api.KeptSingle | src/redux/api/booksApi.ts:24-25 | An entry is kept exactly when its value is neither `undefined` nor `''`, and then as `(key, String(value))` |
| Api.KeptMembership | src/redux/api/booksApi.ts:23-26 | A pair is in the query exactly when some entry whose value is neither `undefined` nor `''` renders to it |
| Api.KeptLength | src/redux/api/booksApi.ts:23-26 | The query has at most one pair per entry, and exactly one per entry when every value is present |
| Api.JoinEmpty | src/redux/api/booksApi.ts:28 | The joined pairs are the empty text exactly when there are no pairs |
| Api.HrefWithQuery | src/redux/api/booksApi.ts:28 | A list URL starts with its path and `?`, and is exactly that when no pair survives |
| BooksApi.RequestOf | src/redux/api/booksApi.ts:21-88 | Reads are exactly the GETs. Only `getAllBooks` has a query string. Reads and `deleteBook` carry no body, and every other write carries one |
| BooksApi.FilteredReadsShape | src/redux/api/booksApi.ts:38-46 | `getAvailableBooks` is a GET of `books/available` and `getBooksByGenre` a GET of `books/genre/<genre>`; both provide only the plain `Book` tag |
| BooksApi.Provides | src/redux/api/booksApi.ts:30-46 | Writes provide nothing. `getBookById` provides exactly `{Book, id}`, and every other read provides exactly the plain `Book` tag |
| BooksApi.Invalidates | src/redux/api/booksApi.ts:48-88 | Reads invalidate nothing. Every write invalidates the plain `Book` tag, and each invalidated tag is a Book tag or the plain `Borrow` tag |
| BooksApi.GetAllBooksHref | src/redux/api/booksApi.ts:21-28 | The list URL starts with `books?` and is exactly `books?` when no param survives. `available: false` gives `available=false`, and `page: 0` gives `page=0` |
| BooksApi.GetBookByIdShape | src/redux/api/booksApi.ts:33-36 | `getBookById` is a GET of `books/<id>` and provides exactly `{Book, id}` |
| BooksApi.CreateBookShape | src/redux/api/booksApi.ts:48-55 | `createBook` POSTs the body unchanged to `books`, and invalidates only `Book` |
| BooksApi.UpdateBookShape | src/redux/api/booksApi.ts:57-68 | `updateBook` PUTs to `books/<id>`, and invalidates exactly `{Book, id}`, `Book` and `Borrow` |
| BooksApi.DeleteAndAvailabilityShape | src/redux/api/booksApi.ts:70-88 | `deleteBook` DELETEs `books/<id>` and invalidates `Book` and `Borrow`. `updateBookAvailability` PATCHes `books/<id>/availability` with only `available` in the body, and invalidates `{Book, id}` and `Book` but not `Borrow` |
| BorrowsApi.RequestOf | src/redux/api/borrowsApi.ts:19-66 | Reads are exactly the GETs and carry no body. Only `getAllBorrows` has a query string |
| BorrowsApi.Provides | src/redux/api/borrowsApi.ts:28-66 | `createBorrow` provides nothing. `getTotalBorrowedForBook` provides exactly `{Borrow, bookId}`, and every other read provides exactly the plain `Borrow` tag |
| BorrowsApi.Invalidates | src/redux/api/borrowsApi.ts:9-68 | Only `createBorrow` invalidates anything, and no invalidated borrow tag is id-specific |
| BorrowsApi.GetAllBorrowsHref | src/redux/api/borrowsApi.ts:19-27 | The list URL starts with `borrows?` and is exactly `borrows?` when no param survives |
| BorrowsApi.CreateBorrowShape | src/redux/api/borrowsApi.ts:31-38 | `createBorrow` POSTs the request unchanged to `borrows`, and invalidates `Borrow` and `Book` |
| BorrowsApi.TotalBorrowedShape | src/redux/api/borrowsApi.ts:50-53 | `getTotalBorrowedForBook` requests `borrows/book/<bookId>/total` and provides exactly `{Borrow, bookId}` |
| BorrowsApi.FixedReadsShape | src/redux/api/borrowsApi.ts:40-66 | The summary, overdue and statistics reads are GETs of fixed paths that provide only the plain `Borrow` tag |
| TagInvalidation.ReadTagType | src/redux/api/booksApi.ts:30-46 | Every read of either API provides exactly one tag, of its API's type |
| TagInvalidation.RefetchesIff | src/redux/api/borrowsApi.ts:28-53 | Under the ASSUMED matching rule, a write refetches a read exactly when it invalidates the plain tag of the read's type, or the read's own id tag |
| TagInvalidation.CreateBorrowRefetchesEveryRead | src/redux/api/borrowsApi.ts:37 | Under the assumption, `createBorrow` refetches every read of both APIs |
| TagInvalidation.BookWriteRefetchesBookReads | src/redux/api/booksApi.ts:48-88 | Under the assumption, every book write refetches every book read, `getBookById` included |
| TagInvalidation.BookWritesAndBorrowReads | src/redux/api/booksApi.ts:54-87 | Under the assumption, a book write refetches borrow reads exactly when it is `updateBook` or `deleteBook` |
| TagInvalidation.UpdateBookIdTagRedundant | src/redux/api/booksApi.ts:63-67 | Under the assumption, the `{Book, id}` tag of `updateBook` adds nothing: it refetches exactly what `deleteBook` refetches |
| TagInvalidation.ReadsRefetchNothing | src/redux/api/booksApi.ts:30-46 | A read never refetches anything |
| BooksPage.SearchArg | src/pages/Books.tsx:25 | The `search` argument is `undefined` exactly when the search text is empty, and is the text otherwise |
| BooksPage.GenreArg | src/pages/Books.tsx:26 | The `genre` argument is `undefined` exactly when the filter is "all", and is the filter otherwise |
| BooksPage.AvailableArg | src/pages/Books.tsx:27 | The `available` argument is `undefined` exactly for "all", `true` exactly for "true", and `false` for every other value |
| BooksPage.DeleteErrorMessage | src/pages/Books.tsx:39 | The delete error is never empty. It prefers the server's message, then the error's own message, then "Failed to delete book" |
| BooksPage.BooksPage.constructor | src/pages/Books.tsx:16-20 | The page starts with an empty search, both filters at "all", page 1 and no pending delete |
| BooksPage.BooksPage.SetSearchTerm | src/pages/Books.tsx:84 | Typing sets only the search text. The page number, and so the `page` and `limit` pairs of the query string, are untouched |
| BooksPage.BooksPage.SetGenreFilter | src/pages/Books.tsx:89 | The genre selector sets only the genre filter. The page number, and so the `page` and `limit` pairs of the query string, are untouched |
| BooksPage.BooksPage.SetAvailabilityFilter | src/pages/Books.tsx:105 | The availability selector sets only the availability filter. The page number, and so the `page` and `limit` pairs of the query string, are untouched |
| BooksPage.BooksPage.ClickPrevious | src/pages/Books.tsx:210-213 | Previous moves to `page - 1` when the server reports a previous page, and is inert otherwise. Nothing else changes |
| BooksPage.BooksPage.ClickNext | src/pages/Books.tsx:218-221 | Next moves to `page + 1` when the server reports a next page, and is inert otherwise. Nothing else changes |
| BooksPage.BooksPage.OpenDeleteDialog | src/pages/Books.tsx:168 | The trash button records the book awaiting confirmation, and changes nothing else |
| BooksPage.BooksPage.CancelDelete | src/pages/Books.tsx:180 | Cancel clears the pending delete, and changes nothing else |
| BooksPage.BooksPage.HandleDelete | src/pages/Books.tsx:32-43 | A delete sends `deleteBook(id)`. On success it clears the pending id and shows the success toast. On failure it keeps the pending id and shows the fallback message |
| BooksPage.PageSizeText | src/pages/Books.tsx:24 | The fixed limit is written as `limit=10` |
| BooksPage.ListQuery | src/pages/Books.tsx:22-28 | The list query is `page` and `limit=10`, then `search` when the text is non-empty, `genre` when the filter is neither "all" nor empty, and `available` ("true"/"false") when the filter is not "all" |
| BooksPage.BooksPage.QueryString | src/pages/Books.tsx:22-28 | The query string the page requests in its current state is `ListQueryPairs` of its filters and page: `page`, `limit=10`, then each filter that is set |
| BorrowBook.Validate | src/pages/BorrowBook.tsx:35-80 | A quantity of 0 or an empty due date is always rejected with "Please fill in all required fields". An accepted submit builds exactly `{book: bookId, quantity, dueDate}` |
| BorrowBook.FirstFailure | src/pages/BorrowBook.tsx:34-74 | Reference definition of an early-return chain. It yields nothing exactly when no check fails; otherwise it yields the message of a failing check that all earlier checks pass |
| BorrowBook.ValidateIsFirstFailure | src/pages/BorrowBook.tsx:31-80 | `handleSubmit` rejects with the message of the first failing check, in source order, and builds the request only when none fails |
| BorrowBook.AcceptIff | src/pages/BorrowBook.tsx:35-80 | The request is built exactly when the quantity is at least 1, the due date is set, the book (when loaded) is available with at least `quantity` copies, and the due date is not at or before now |
| BorrowBook.QuantityTooLowOnlyNegative | src/pages/BorrowBook.tsx:35-44 | "Quantity must be at least 1" is shown exactly for a negative quantity with a due date, because 0 is caught first |
| BorrowBook.BookChecksInOrder | src/pages/BorrowBook.tsx:47-64 | With book data: unavailable is rejected first, then no copies, then `quantity > copies`. A quantity equal to `copies` passes, and `copies + 1` is rejected |
| BorrowBook.NoBookSkipsBookChecks | src/pages/BorrowBook.tsx:47 | Without book data, the outcome depends only on quantity, due date and instant |
| BorrowBook.DueDateCheck | src/pages/BorrowBook.tsx:67-74 | Once the earlier checks pass, a due date at or before now is rejected and a later one accepted. An Invalid Date is accepted, because its comparison is false |
| BorrowBook.HandleSubmit | src/pages/BorrowBook.tsx:31-91 | A submit sends `createBorrow` exactly when the chain accepts, with the chain's request. Every outcome starts with a toast. A rejected check shows its message; a successful send shows "Book borrowed successfully! Redirecting to summary..." and navigates to `/borrow-summary`; a failed send shows the server's message, else the error's own message, else "Failed to borrow book" |
| BorrowBook.RejectedSubmitSendsNothing | src/pages/BorrowBook.tsx:34-74 | A rejected submit shows one error toast with the failing check's message, and sends nothing |
| BorrowBook.QuantityInput | src/pages/BorrowBook.tsx:198 | The quantity input never yields 0 |
| BorrowBook.QuantityInputValues | src/pages/BorrowBook.tsx:198 | An empty text and "0" give 1. The text of any other integer gives it back, negatives included |
| BorrowBook.SubmitButtonAgreesWithChain | src/pages/BorrowBook.tsx:239 | With no borrow in flight, the chain accepts exactly when the button is enabled and the quantity, due date and instant checks pass |
| BorrowBook.ViewOf | src/pages/BorrowBook.tsx:109-141 | The loading view is shown exactly while the query loads, the not-found view exactly when it settled with an error or no book; otherwise the refusal view is shown exactly when the list page disables borrowing that book, and the form for that book otherwise |
| BorrowBook.ViewAgreesWithListButton | src/pages/BorrowBook.tsx:127 | The page refuses a book exactly when the list page disables its borrow button. An available book with negative copies reaches the form, whose submit button then stays disabled |
| BorrowBook.BorrowBookPage.constructor | src/pages/BorrowBook.tsx:21-24 | The form starts at quantity 1 with no due date |
| BorrowBook.BorrowBookPage.HandleInputChange | src/pages/BorrowBook.tsx:93-107 | Only the named field is replaced. A quantity above the book's copies raises a warning toast, and is stored anyway |
| CreateBook.TitleIssues | src/pages/CreateBook.tsx:29-32 | The title has no issue exactly when its length is 1 to 200, and every issue it raises belongs to `title`. An empty title gets only the "required" message and an over-long one only the "too long" message |
| CreateBook.AuthorIssues | src/pages/CreateBook.tsx:33-36 | The author has no issue exactly when its length is 1 to 100, and every issue it raises belongs to `author`. An empty author gets only the "required" message and an over-long one only the "too long" message |
| CreateBook.CopiesIssues | src/pages/CreateBook.tsx:40-43 | Copies have no issue exactly when they are a whole number of at least 1, and every issue raised belongs to `copies`. The minimum message is raised exactly below 1, and the whole-number message exactly for a fraction |
| CreateBook.ValidIff | src/pages/CreateBook.tsx:28-45 | The schema passes exactly when the title, author, genre, ISBN and copies rules all hold |
| CreateBook.IssuesPerField | src/pages/CreateBook.tsx:28-45 | Each field is reported exactly when its own rule fails. `description` and `available` are never reported |
| CreateBook.DefaultValuesFail | src/pages/CreateBook.tsx:55-63 | The default values fail with exactly the four "required" messages, for title, author, genre and ISBN |
| CreateBook.Parse | src/pages/CreateBook.tsx:53-54 | The resolver yields issues exactly when the schema fails, and those issues are the schema's full list (`SchemaIssues`). Otherwise it hands over the same fields, with the copies as an integer equal to the entered value |
| CreateBook.Submit | src/pages/CreateBook.tsx:66-74 | A submit shows issues exactly when the schema fails, and it shows the schema's full list (`SchemaIssues`). Otherwise it sends `createBook` with the parsed form: the same title, author, genre, ISBN, description and availability, and the copies as the integer entered |
| CreateBook.SubmitEffects | src/pages/CreateBook.tsx:66-74 | Success navigates to `/books`. Failure shows the server's message or "Failed to create book", and never the error's own `message` |
| CreateBook.CopiesInput | src/pages/CreateBook.tsx:189-191 | The copies input always yields a whole, non-zero number |
| CreateBook.CopiesInputValues | src/pages/CreateBook.tsx:189-191 | An empty text and "0" give 1. Typed copies never break the whole-number rule, and break the at-least-1 rule only when negative |
| EditBook.ApplyChangesOneField | src/pages/EditBook.tsx:64-69 | `handleInputChange` sets the named field to the value and leaves the other six unchanged |
| EditBook.ApplyLaws | src/pages/EditBook.tsx:64-69 | Writing a field's current value changes nothing, and of two writes to one field the last wins |
| EditBook.FromBook | src/pages/EditBook.tsx:32-45 | Population copies exactly the seven fields title, author, genre, isbn, description, copies and available from the book |
| EditBook.HandleSubmit | src/pages/EditBook.tsx:47-62 | Nothing is sent exactly when title, author, genre or ISBN is empty. Otherwise the route id and the whole form are sent as `updateBook`. A rejected submit shows only the toast "Please fill in all required fields"; a successful send shows "Book updated successfully" and then navigates to `/books/<id>`, and that navigation happens on no other path |
| EditBook.EditSubmitLooserThanCreate | src/pages/EditBook.tsx:50-53 | There is no length bound and no copies rule: 0 copies and a title over 200 characters are both sent |
| EditBook.SubmitFailureMessage | src/pages/EditBook.tsx:59-61 | A failed update shows the server's message or "Failed to update book" |
| EditBook.PopulatedSubmitSendsBook | src/pages/EditBook.tsx:32-56 | Submitting a populated, untouched form sends the loaded book's own seven values |
| EditBook.CopiesInputValues | src/pages/EditBook.tsx:170 | An empty or unparsable text gives 0, and the text of every integer, 0 included, gives it back |
| EditBook.AvailableSelectRoundTrip | src/pages/EditBook.tsx:178-179 | The select stores back the flag whose option it shows, and shows again each option it stored |
| EditBook.ViewOf | src/pages/EditBook.tsx:71-85 | The form is shown exactly when the book has loaded without error, and it shows that book |
| EditBook.EditBookPage.constructor | src/pages/EditBook.tsx:21-29 | The form starts with empty strings, 1 copy and available |
| EditBook.EditBookPage.OnDataChanged | src/pages/EditBook.tsx:32-45 | When book data arrives the form becomes that book's seven fields; otherwise it is unchanged |
| EditBook.EditBookPage.HandleInputChange | src/pages/EditBook.tsx:64-69 | The form becomes the one-field update of the old form |

## Left out

- Cache machinery of the data-fetching library: refetching, de-duplication, subscriptions and response ordering. Only the declared tag tables are modelled. The tag-matching rule in `TagInvalidation.Matches` is an ASSUMPTION, not a property of this code.
- HTTP transport: the base URL, headers and `fetch` calls of `src/redux/api/apiSlice.ts`. A request is a value.
- Percent-encoding by `URLSearchParams` (the application/x-www-form-urlencoded serializer of section 5.2 of the WHATWG URL Standard). A query string is a list of key/value pairs, and `Api.Href` joins them unencoded.
- Dates. `new Date(dueDate)` and the current instant are parameters (`Instant`, `now`). Date parsing, `toISOString`, `setDate` and time zones are not modelled, and the `tomorrow` computed inside `handleSubmit` is unused by the code. The `minDate` bound of the due-date input is a browser constraint, see below.
- Toasts, `navigate` and `console.error`. The first two are returned as `Effect` values, and the console output is dropped.
- JsValues.ParseInt: models decimal `parseInt` on ASCII white space, one sign and decimal digits. The `0x` hexadecimal prefix and Unicode white space are not modelled, because the number inputs never produce them.
- JavaScript numbers are unbounded integers, except the create form's `copies`, which is a `real` so the whole-number rule can fail. Floating-point rounding, `Infinity` and `-0` are not modelled.
- CreateBook.TitleIssues, CreateBook.AuthorIssues (and `ValidIff`, `IssuesPerField` through them): string length counts Dafny characters, where zod's `.max` counts UTF-16 code units. The two differ for characters outside the Basic Multilingual Plane, so a title or author of such characters can pass the model's bound and fail zod's.
- Pages and components that are only markup: Home, BookDetails, BorrowSummary, Navbar, Footer, App, main, the error boundary and the route table. BookDetails' borrow button uses the list page's `!available || copies === 0` rule (`BooksPage.BorrowDisabled`); its status text uses `available && copies > 0`, which differs from that rule only for a negative copy count, the case `BorrowBook.ViewAgreesWithListButton` singles out.
- Native form constraint validation. The inputs carry `required`, `min` and `max` attributes (the borrow page's quantity `min="1"`/`max={copies}` and due date `min={minDate}`, the edit page's required fields and copies `min="0"`, the create page's copies `min="1"`), so a browser may refuse a submit before the handler runs. The model covers the handlers only: every handler outcome it states is reachable only when the browser lets the submit through.
- The borrow buttons of the list page wrap a router `Link` with `asChild`, so `disabled` reaches an anchor, which does not honour it; the link may stay clickable. What stops the borrow is the borrow page's own refusal (`BorrowBook.ViewOf`, `BorrowBook.ViewAgreesWithListButton`). This is stated from the markup and not confirmed.
- Search debounce, resetting the page on a search change, and toggling `available` from `copies` do not exist in this code, so they are not modelled. In particular, no filter setter resets the page.
- The ordering of the edit page's population effect relative to a submit is React scheduling. The model proves what a submit of a populated form sends (`EditBook.PopulatedSubmitSendsBook`), and that the form view exists only once the book has loaded (`EditBook.ViewOf`).
- Loading and in-flight flags (`isLoading`, `isDeleting`, `isUpdating`) appear only as parameters where a rule reads them.
