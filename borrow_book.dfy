/**
  The borrow page: its form state, the ordered checks `handleSubmit` runs
  before it builds a borrow request, the per-field update, the quantity input
  coercion, the submit-button rule and which view the page shows.
  Instants are milliseconds; the current instant and the instant parsed from
  the due-date text are parameters.
 */
module BorrowBook {
  import opened JsValues
  import opened Types
  import BorrowsApi
  import BooksPage

  /** `new Date(text)`: an instant, or an Invalid Date whose time value is NaN. */
  datatype Instant = Invalid | At(ms: int)

  datatype BorrowForm = BorrowForm(quantity: int, dueDate: string)

  const MissingFields := "Please fill in all required fields"
  const QuantityTooLow := "Quantity must be at least 1"
  const BookUnavailable := "This book is currently not available for borrowing"
  const NoCopies := "No copies available for borrowing"
  const DueDateNotFuture := "Due date must be in the future"
  const BorrowSucceeded := "Book borrowed successfully! Redirecting to summary..."
  const SummaryPath := "/borrow-summary"

  function TooManyMessage(copies: int): string {
    "Only " + IntToString(copies) + " copies available. Please reduce the quantity."
  }

  function QuantityWarning(copies: int): string {
    "Only " + IntToString(copies) + " copies available"
  }

  /** `selectedDate <= new Date()`; a comparison with an Invalid Date is false. */
  predicate NotAfter(selected: Instant, now: int) {
    selected.At? && selected.ms <= now
  }

  /** The outcome of the checks: the first failing check's message, or the request to send. */
  datatype Verdict = Reject(message: string) | Accept(request: CreateBorrowRequest)

  /** The early-return chain of `handleSubmit`, up to building the request. */
  function Validate(form: BorrowForm, book: Option<Book>, bookId: string, selected: Instant, now: int): (v: Verdict)
    ensures v.Accept? ==> v.request == CreateBorrowRequest(bookId, form.quantity, form.dueDate)
    ensures form.quantity == 0 || form.dueDate == "" ==> v == Reject(MissingFields)
  {
    if form.quantity == 0 || form.dueDate == "" then Reject(MissingFields)
    else if form.quantity < 1 then Reject(QuantityTooLow)
    else if book.Some? && !book.value.available then Reject(BookUnavailable)
    else if book.Some? && book.value.copies < 1 then Reject(NoCopies)
    else if book.Some? && form.quantity > book.value.copies then Reject(TooManyMessage(book.value.copies))
    else if NotAfter(selected, now) then Reject(DueDateNotFuture)
    else Accept(CreateBorrowRequest(bookId, form.quantity, form.dueDate))
  }

  /** One check of the chain: whether it fails, and the message it shows then. */
  datatype Check = Check(fails: bool, message: string)

  /** The checks, in the order `handleSubmit` runs them; the book checks fail only when book data is present. */
  function Checks(form: BorrowForm, book: Option<Book>, selected: Instant, now: int): seq<Check> {
    [Check(form.quantity == 0 || form.dueDate == "", MissingFields),
     Check(form.quantity < 1, QuantityTooLow),
     Check(book.Some? && !book.value.available, BookUnavailable),
     Check(book.Some? && book.value.copies < 1, NoCopies),
     Check(book.Some? && form.quantity > book.value.copies,
           if book.Some? then TooManyMessage(book.value.copies) else ""),
     Check(NotAfter(selected, now), DueDateNotFuture)]
  }

  /** The message of the first failing check, if any. */
  function FirstFailure(checks: seq<Check>): (r: Option<string>)
    ensures r.None? <==> forall i :: 0 <= i < |checks| ==> !checks[i].fails
    ensures r.Some? ==> exists i :: 0 <= i < |checks| && checks[i].fails && checks[i].message == r.value &&
                                    forall j :: 0 <= j < i ==> !checks[j].fails
  {
    if checks == [] then None
    else if checks[0].fails then Some(checks[0].message)
    else
      var r := FirstFailure(checks[1..]);
      if r.Some? then
        ghost var i :| 0 <= i < |checks[1..]| && checks[1..][i].fails && checks[1..][i].message == r.value &&
                       forall j :: 0 <= j < i ==> !checks[1..][j].fails;
        assert checks[i + 1] == checks[1..][i];
        assert forall j :: 1 <= j < i + 1 ==> checks[j] == checks[1..][j - 1];
        r
      else
        assert forall i :: 1 <= i < |checks| ==> checks[i] == checks[1..][i - 1];
        r
  }

  lemma FirstFailureCons(c: Check, rest: seq<Check>)
    ensures FirstFailure([c] + rest) == if c.fails then Some(c.message) else FirstFailure(rest)
  {
    assert ([c] + rest)[1..] == rest;
  }

  /**
    `handleSubmit` is "the first failing check decides": it rejects with the
    message of the first check in `Checks` that fails, and builds the request
    `{book: bookId, quantity, dueDate}` only when none does.
   */
  lemma ValidateIsFirstFailure(form: BorrowForm, book: Option<Book>, bookId: string, selected: Instant, now: int)
    ensures Validate(form, book, bookId, selected, now) ==
      match FirstFailure(Checks(form, book, selected, now))
      case Some(m) => Reject(m)
      case None => Accept(CreateBorrowRequest(bookId, form.quantity, form.dueDate))
  {
    var cs := Checks(form, book, selected, now);
    assert cs == [cs[0]] + ([cs[1]] + ([cs[2]] + ([cs[3]] + ([cs[4]] + [cs[5]]))));
    FirstFailureCons(cs[0], [cs[1]] + ([cs[2]] + ([cs[3]] + ([cs[4]] + [cs[5]]))));
    FirstFailureCons(cs[1], [cs[2]] + ([cs[3]] + ([cs[4]] + [cs[5]])));
    FirstFailureCons(cs[2], [cs[3]] + ([cs[4]] + [cs[5]]));
    FirstFailureCons(cs[3], [cs[4]] + [cs[5]]);
    FirstFailureCons(cs[4], [cs[5]]);
    FirstFailureCons(cs[5], []);
  }

  /**
    The request is built exactly when every condition holds: a quantity of at
    least 1, a due date, (with book data) an available book with at least
    `quantity` copies, and a due date not at or before now.
   */
  lemma AcceptIff(form: BorrowForm, book: Option<Book>, bookId: string, selected: Instant, now: int)
    ensures Validate(form, book, bookId, selected, now).Accept? <==>
      form.quantity >= 1 && form.dueDate != "" &&
      (book.Some? ==> book.value.available && 1 <= book.value.copies && form.quantity <= book.value.copies) &&
      !NotAfter(selected, now)
  {
  }

  /** "Quantity must be at least 1" is only ever shown for a negative quantity: 0 is caught first. */
  lemma QuantityTooLowOnlyNegative(form: BorrowForm, book: Option<Book>, bookId: string, selected: Instant, now: int)
    ensures Validate(form, book, bookId, selected, now) == Reject(QuantityTooLow) <==> form.quantity < 0 && form.dueDate != ""
  {
  }

  /**
    With book data, an unavailable book is rejected before the copy checks,
    a book with no copies before the quantity check, and a quantity equal to
    `copies` passes where `copies + 1` is rejected.
   */
  lemma BookChecksInOrder(quantity: int, dueDate: string, book: Book, bookId: string, selected: Instant, now: int)
    requires quantity >= 1 && dueDate != ""
    ensures !book.available ==>
      Validate(BorrowForm(quantity, dueDate), Some(book), bookId, selected, now) == Reject(BookUnavailable)
    ensures book.available && book.copies < 1 ==>
      Validate(BorrowForm(quantity, dueDate), Some(book), bookId, selected, now) == Reject(NoCopies)
    ensures book.available && book.copies >= 1 && !NotAfter(selected, now) ==>
      Validate(BorrowForm(book.copies, dueDate), Some(book), bookId, selected, now).Accept?
    ensures book.available && book.copies >= 1 ==>
      Validate(BorrowForm(book.copies + 1, dueDate), Some(book), bookId, selected, now) == Reject(TooManyMessage(book.copies))
  {
  }

  /** Without book data the availability and copy checks are skipped. */
  lemma NoBookSkipsBookChecks(form: BorrowForm, bookId: string, selected: Instant, now: int)
    ensures Validate(form, None, bookId, selected, now).Accept? <==>
      form.quantity >= 1 && form.dueDate != "" && !NotAfter(selected, now)
  {
  }

  /** A due date at or before now is rejected once the earlier checks pass; an Invalid Date is not. */
  lemma DueDateCheck(form: BorrowForm, book: Option<Book>, bookId: string, t: int, now: int)
    requires Validate(form, book, bookId, Invalid, now).Accept? || Validate(form, book, bookId, At(now + 1), now).Accept?
    ensures t <= now ==> Validate(form, book, bookId, At(t), now) == Reject(DueDateNotFuture)
    ensures t > now ==> Validate(form, book, bookId, At(t), now).Accept?
    ensures Validate(form, book, bookId, Invalid, now).Accept?
  {
  }

  /** What a submit does: the request it sends (if any) and its effects. */
  datatype SubmitTrace = SubmitTrace(sent: Option<BorrowsApi.Endpoint>, effects: seq<Effect>)

  /** `handleSubmit`, with the settled result of `createBorrow` as a parameter. */
  function HandleSubmit(form: BorrowForm, book: Option<Book>, bookId: string, selected: Instant, now: int,
                        result: MutationResult): (t: SubmitTrace)
    ensures t.sent.None? <==> Validate(form, book, bookId, selected, now).Reject?
    ensures t.sent.Some? ==> t.sent.value == BorrowsApi.CreateBorrow(Validate(form, book, bookId, selected, now).request)
    ensures Navigate(SummaryPath) in t.effects <==> t.sent.Some? && result.Succeeded?
    ensures |t.effects| >= 1 && (t.effects[0].ToastSuccess? || t.effects[0].ToastError?)
    ensures t.sent.Some? && result.Succeeded? ==> t.effects == [ToastSuccess(BorrowSucceeded), Navigate(SummaryPath)]
    ensures t.sent.Some? && result.Failed? ==>
      t.effects == [ToastError(OrElse(result.error.dataMessage, OrElse(result.error.message, "Failed to borrow book")))]
  {
    match Validate(form, book, bookId, selected, now)
    case Reject(message) => SubmitTrace(None, [ToastError(message)])
    case Accept(request) =>
      var effects :=
        match result
        case Succeeded => [ToastSuccess(BorrowSucceeded), Navigate(SummaryPath)]
        case Failed(error) => [ToastError(OrElse(error.dataMessage, OrElse(error.message, "Failed to borrow book")))];
      SubmitTrace(Some(BorrowsApi.CreateBorrow(request)), effects)
  }

  /** A rejected submit shows exactly one error toast, with the failing check's message, and sends nothing. */
  lemma RejectedSubmitSendsNothing(form: BorrowForm, book: Option<Book>, bookId: string, selected: Instant, now: int,
                                   result: MutationResult)
    requires Validate(form, book, bookId, selected, now).Reject?
    ensures HandleSubmit(form, book, bookId, selected, now, result) ==
      SubmitTrace(None, [ToastError(Validate(form, book, bookId, selected, now).message)])
  {
  }

  /** `parseInt(e.target.value) || 1` of the quantity input. */
  function QuantityInput(text: string): (q: int)
    ensures q != 0
  {
    ParseIntOr(text, 1)
  }

  /** An empty or unparsable text, and "0", become 1; any other integer text is kept, negatives included. */
  lemma QuantityInputValues(n: int)
    ensures QuantityInput("") == 1
    ensures QuantityInput("0") == 1
    ensures QuantityInput(IntToString(n)) == if n == 0 then 1 else n
  {
    ParseIntOrRendered(n, 1);
    ParseIntOrRendered(0, 1);
    assert IntToString(0) == "0";
  }

  /** The submit button's `disabled` rule. */
  predicate SubmitDisabled(isBorrowing: bool, book: Book, quantity: int) {
    isBorrowing || !book.available || book.copies < 1 || quantity > book.copies
  }

  /**
    With book data and no borrow in flight, the button is enabled exactly when
    the book checks of `handleSubmit` pass; the chain additionally needs a
    positive quantity, a due date and a future instant.
   */
  lemma SubmitButtonAgreesWithChain(form: BorrowForm, book: Book, bookId: string, selected: Instant, now: int)
    ensures Validate(form, Some(book), bookId, selected, now).Accept? <==>
      !SubmitDisabled(false, book, form.quantity) && form.quantity >= 1 && form.dueDate != "" && !NotAfter(selected, now)
  {
    AcceptIff(form, Some(book), bookId, selected, now);
  }

  /** Which of its four views the page renders. */
  datatype View = Loading | NotFound | Unavailable(book: Book) | FormView(book: Book)

  /** The view, from the state of `getBookById`. */
  function ViewOf(isLoading: bool, hasError: bool, data: Option<Book>): (v: View)
    ensures v.Loading? <==> isLoading
    ensures v.NotFound? <==> !isLoading && (hasError || data.None?)
    ensures !isLoading && !hasError && data.Some? ==>
      v == if BooksPage.BorrowDisabled(data.value) then Unavailable(data.value) else FormView(data.value)
    ensures v.FormView? ==> !isLoading && !hasError && data == Some(v.book)
  {
    if isLoading then Loading
    else if hasError || data.None? then NotFound
    else if !data.value.available || data.value.copies == 0 then Unavailable(data.value)
    else FormView(data.value)
  }

  /**
    The page refuses a book exactly when the list page disables its borrow
    button; a book with a negative copy count still reaches the form, whose
    submit button then stays disabled.
   */
  lemma ViewAgreesWithListButton(book: Book, quantity: int)
    ensures ViewOf(false, false, Some(book)).Unavailable? <==> BooksPage.BorrowDisabled(book)
    ensures book.available && book.copies < 0 ==> ViewOf(false, false, Some(book)) == FormView(book)
    ensures ViewOf(false, false, Some(book)).FormView? ==>
      (SubmitDisabled(false, book, quantity) <==> book.copies < 0 || quantity > book.copies)
  {
  }

  datatype FieldChange = SetQuantity(quantity: int) | SetDueDate(dueDate: string)

  /** The page's `formData`. */
  class BorrowBookPage {
    var formData: BorrowForm

    constructor ()
      ensures formData == BorrowForm(1, "")
    {
      formData := BorrowForm(1, "");
    }

    /**
      `handleInputChange`: stores the new value of one field. A quantity above
      the book's copies only raises a warning toast; the value is stored.
     */
    method HandleInputChange(change: FieldChange, book: Option<Book>) returns (warning: Option<Effect>)
      modifies this
      ensures change.SetQuantity? ==> formData == old(formData).(quantity := change.quantity)
      ensures change.SetDueDate? ==> formData == old(formData).(dueDate := change.dueDate)
      ensures warning.Some? <==> change.SetQuantity? && book.Some? && change.quantity > book.value.copies
      ensures warning.Some? ==> warning.value == ToastError(QuantityWarning(book.value.copies))
    {
      warning := None;
      match change
      case SetQuantity(q) =>
        formData := formData.(quantity := q);
        if book.Some? && q > book.value.copies {
          warning := Some(ToastError(QuantityWarning(book.value.copies)));
        }
      case SetDueDate(d) =>
        formData := formData.(dueDate := d);
    }
  }
}
