/**
  The edit-book page: its form record, the population from the loaded book,
  the one-field-at-a-time update, the required-field check of `handleSubmit`,
  the input coercions and which view the page shows.
 */
module EditBook {
  import opened JsValues
  import opened Types
  import BooksApi

  /** The page's `formData`: the seven editable fields of a book. */
  datatype EditForm = EditForm(
    title: string,
    author: string,
    genre: string,
    isbn: string,
    description: string,
    copies: int,
    available: bool)

  const InitialForm := EditForm("", "", "", "", "", 1, true)

  const MissingFields := "Please fill in all required fields"

  /** The key passed to `handleInputChange`. */
  datatype FieldName = Title | Author | Genre | Isbn | Description | Copies | Available

  datatype FieldValue = Text(text: string) | Number(number: int) | Flag(flag: bool)

  /** `formData[field]`. */
  function Get(form: EditForm, field: FieldName): FieldValue {
    match field
    case Title => Text(form.title)
    case Author => Text(form.author)
    case Genre => Text(form.genre)
    case Isbn => Text(form.isbn)
    case Description => Text(form.description)
    case Copies => Number(form.copies)
    case Available => Flag(form.available)
  }

  /** One call of `handleInputChange(field, value)`, with a value of the field's type. */
  datatype FieldChange =
    | SetTitle(title: string)
    | SetAuthor(author: string)
    | SetGenre(genre: string)
    | SetIsbn(isbn: string)
    | SetDescription(description: string)
    | SetCopies(copies: int)
    | SetAvailable(available: bool)
  {
    function Field(): FieldName {
      match this
      case SetTitle(_) => Title
      case SetAuthor(_) => Author
      case SetGenre(_) => Genre
      case SetIsbn(_) => Isbn
      case SetDescription(_) => Description
      case SetCopies(_) => Copies
      case SetAvailable(_) => Available
    }

    function Value(): FieldValue {
      match this
      case SetTitle(v) => Text(v)
      case SetAuthor(v) => Text(v)
      case SetGenre(v) => Text(v)
      case SetIsbn(v) => Text(v)
      case SetDescription(v) => Text(v)
      case SetCopies(v) => Number(v)
      case SetAvailable(v) => Flag(v)
    }
  }

  /** `{ ...prev, [field]: value }`. */
  function Apply(form: EditForm, change: FieldChange): EditForm {
    match change
    case SetTitle(v) => form.(title := v)
    case SetAuthor(v) => form.(author := v)
    case SetGenre(v) => form.(genre := v)
    case SetIsbn(v) => form.(isbn := v)
    case SetDescription(v) => form.(description := v)
    case SetCopies(v) => form.(copies := v)
    case SetAvailable(v) => form.(available := v)
  }

  /** `handleInputChange` sets the named field to the value and leaves the other six as they were. */
  lemma ApplyChangesOneField(form: EditForm, change: FieldChange)
    ensures Get(Apply(form, change), change.Field()) == change.Value()
    ensures forall f :: f != change.Field() ==> Get(Apply(form, change), f) == Get(form, f)
  {
  }

  /** Two forms that agree on every field are the same record. */
  lemma FormExtensionality(a: EditForm, b: EditForm)
    requires forall f :: Get(a, f) == Get(b, f)
    ensures a == b
  {
    assert Get(a, Title) == Get(b, Title);
    assert Get(a, Author) == Get(b, Author);
    assert Get(a, Genre) == Get(b, Genre);
    assert Get(a, Isbn) == Get(b, Isbn);
    assert Get(a, Description) == Get(b, Description);
    assert Get(a, Copies) == Get(b, Copies);
    assert Get(a, Available) == Get(b, Available);
  }

  /** Setting a field back to the value it has changes nothing; the last of two writes to one field wins. */
  lemma ApplyLaws(form: EditForm, change: FieldChange, later: FieldChange)
    ensures Get(form, change.Field()) == change.Value() ==> Apply(form, change) == form
    ensures later.Field() == change.Field() ==> Apply(Apply(form, change), later) == Apply(form, later)
  {
    ApplyChangesOneField(form, change);
    if Get(form, change.Field()) == change.Value() {
      FormExtensionality(Apply(form, change), form);
    }
    if later.Field() == change.Field() {
      ApplyChangesOneField(form, change);
      ApplyChangesOneField(Apply(form, change), later);
      ApplyChangesOneField(form, later);
      FormExtensionality(Apply(Apply(form, change), later), Apply(form, later));
    }
  }

  /** The population effect's record: exactly the seven fields of the loaded book. */
  function FromBook(book: Book): (form: EditForm)
    ensures Get(form, Title) == Text(book.title) && Get(form, Author) == Text(book.author)
    ensures Get(form, Genre) == Text(book.genre) && Get(form, Isbn) == Text(book.isbn)
    ensures Get(form, Description) == Text(book.description)
    ensures Get(form, Copies) == Number(book.copies) && Get(form, Available) == Flag(book.available)
  {
    EditForm(book.title, book.author, book.genre, book.isbn, book.description, book.copies, book.available)
  }

  /** The update body: the whole form record. */
  function AsRequest(form: EditForm): UpdateBookRequest {
    UpdateBookRequest(Some(form.title), Some(form.author), Some(form.genre), Some(form.isbn),
                      Some(form.description), Some(form.copies), Some(form.available))
  }

  /** `!title || !author || !genre || !isbn`. */
  predicate MissingRequired(form: EditForm) {
    form.title == "" || form.author == "" || form.genre == "" || form.isbn == ""
  }

  datatype SubmitTrace = SubmitTrace(sent: Option<BooksApi.Endpoint>, effects: seq<Effect>)

  /** `handleSubmit` for route id `id`, with the settled result of `updateBook` as a parameter. */
  function HandleSubmit(id: string, form: EditForm, result: MutationResult): (t: SubmitTrace)
    ensures t.sent.None? <==> MissingRequired(form)
    ensures t.sent.Some? ==> t.sent.value == BooksApi.UpdateBook(id, AsRequest(form))
    ensures Navigate("/books/" + id) in t.effects <==> !MissingRequired(form) && result.Succeeded?
    ensures MissingRequired(form) ==> t.effects == [ToastError(MissingFields)]
    ensures !MissingRequired(form) && result.Succeeded? ==>
      t.effects == [ToastSuccess("Book updated successfully"), Navigate("/books/" + id)]
  {
    if MissingRequired(form) then SubmitTrace(None, [ToastError(MissingFields)])
    else
      var effects :=
        match result
        case Succeeded => [ToastSuccess("Book updated successfully"), Navigate("/books/" + id)]
        case Failed(error) => [ToastError(OrElse(error.dataMessage, "Failed to update book"))];
      SubmitTrace(Some(BooksApi.UpdateBook(id, AsRequest(form))), effects)
  }

  /**
    Unlike the create schema, the edit check has no length bound and no
    copies rule: any non-empty strings pass, with any number of copies,
    0 and negative ones included.
   */
  lemma EditSubmitLooserThanCreate(id: string, form: EditForm, result: MutationResult)
    requires form.title != "" && form.author != "" && form.genre != "" && form.isbn != ""
    ensures HandleSubmit(id, form.(copies := 0), result).sent.Some?
    ensures HandleSubmit(id, form.(title := form.title + seq(200, _ => 'x')), result).sent.Some?
  {
  }

  /** On failure the toast is the server's message or "Failed to update book". */
  lemma SubmitFailureMessage(id: string, form: EditForm, error: MutationError)
    requires !MissingRequired(form)
    ensures HandleSubmit(id, form, Failed(error)).effects ==
      [ToastError(if error.dataMessage.Some? && error.dataMessage.value != "" then error.dataMessage.value
                  else "Failed to update book")]
  {
  }

  /** Submitting a populated, untouched form sends the loaded book's own seven values back. */
  lemma PopulatedSubmitSendsBook(id: string, book: Book, result: MutationResult)
    requires book.title != "" && book.author != "" && book.genre != "" && book.isbn != ""
    ensures HandleSubmit(id, FromBook(book), result).sent ==
      Some(BooksApi.UpdateBook(id, UpdateBookRequest(Some(book.title), Some(book.author), Some(book.genre),
        Some(book.isbn), Some(book.description), Some(book.copies), Some(book.available))))
  {
  }

  /** `parseInt(e.target.value) || 0` of the copies input. */
  function CopiesInput(text: string): int {
    ParseIntOr(text, 0)
  }

  /** An empty or unparsable text becomes 0, and the text of every integer, 0 included, reads back as itself. */
  lemma CopiesInputValues(n: int, text: string)
    ensures CopiesInput("") == 0
    ensures ParseInt(text).NaN? ==> CopiesInput(text) == 0
    ensures CopiesInput(IntToString(n)) == n
  {
    ParseIntOrRendered(n, 0);
  }

  /** `value === "true"` of the availability select. */
  function AvailableInput(value: string): bool {
    value == "true"
  }

  /** The value the availability select shows for the form's flag. */
  function AvailableSelectValue(available: bool): string {
    if available then "true" else "false"
  }

  /**
    The select round-trips: choosing the option it shows for a flag stores
    that flag back, and each of its two options is shown again for the flag
    it stores.
   */
  lemma AvailableSelectRoundTrip(available: bool, option: string)
    requires option == "true" || option == "false"
    ensures AvailableInput(AvailableSelectValue(available)) == available
    ensures AvailableSelectValue(AvailableInput(option)) == option
  {
  }

  /** Which of its three views the page renders. */
  datatype View = Loading | NotFound | FormView(book: Book)

  /** The view, from the state of `getBookById`. */
  function ViewOf(isLoading: bool, hasError: bool, data: Option<Book>): (v: View)
    ensures v.FormView? <==> !isLoading && !hasError && data.Some?
    ensures v.FormView? ==> data == Some(v.book)
  {
    if isLoading then Loading
    else if hasError || data.None? then NotFound
    else FormView(data.value)
  }

  class EditBookPage {
    var formData: EditForm

    constructor ()
      ensures formData == InitialForm
    {
      formData := InitialForm;
    }

    /** The population effect, run whenever the query's data changes. */
    method OnDataChanged(data: Option<Book>)
      modifies this
      ensures formData == if data.Some? then FromBook(data.value) else old(formData)
    {
      if data.Some? {
        formData := FromBook(data.value);
      }
    }

    /** `handleInputChange`. */
    method HandleInputChange(change: FieldChange)
      modifies this
      ensures formData == Apply(old(formData), change)
    {
      formData := Apply(formData, change);
    }
  }
}
