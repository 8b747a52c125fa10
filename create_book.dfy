/**
  The create-book form: the schema its values must satisfy, its default
  values, the copies input coercion and what a submit does.
 */
module CreateBook {
  import opened JsValues
  import opened Types
  import BooksApi

  /** The form's values. `copies` is a JavaScript number, which need not be whole. */
  datatype FormData = FormData(
    title: string,
    author: string,
    genre: string,
    isbn: string,
    description: string,
    copies: real,
    available: bool)

  datatype Field = Title | Author | Genre | Isbn | Description | Copies | Available

  /** One schema violation: the field and the message the form shows under it. */
  datatype Issue = Issue(field: Field, message: string)

  const DefaultValues := FormData("", "", "", "", "", 1.0, true)

  const TitleRequired := Issue(Title, "Title is required")
  const TitleTooLong := Issue(Title, "Title cannot exceed 200 characters")
  const AuthorRequired := Issue(Author, "Author is required")
  const AuthorTooLong := Issue(Author, "Author cannot exceed 100 characters")
  const GenreRequired := Issue(Genre, "Genre is required")
  const IsbnRequired := Issue(Isbn, "ISBN is required")
  const CopiesTooFew := Issue(Copies, "Number of copies must be at least 1")
  const CopiesNotWhole := Issue(Copies, "Copies must be a whole number")

  predicate IsWhole(x: real) {
    x.Floor as real == x
  }

  /** The issue when `cond` fails, nothing otherwise. */
  function Unless(cond: bool, issue: Issue): (r: seq<Issue>)
    ensures r == [] <==> cond
    ensures forall i :: i in r ==> i == issue
  {
    if cond then [] else [issue]
  }

  predicate TitleValid(title: string) { 1 <= |title| <= 200 }
  predicate AuthorValid(author: string) { 1 <= |author| <= 100 }
  predicate CopiesValid(copies: real) { copies >= 1.0 && IsWhole(copies) }

  /** `z.string().min(1).max(200)` on the title. */
  function TitleIssues(title: string): (r: seq<Issue>)
    ensures r == [] <==> TitleValid(title)
    ensures forall i :: i in r ==> i.field == Title
    ensures |title| == 0 ==> r == [TitleRequired]
    ensures |title| > 200 ==> r == [TitleTooLong]
  {
    Unless(|title| >= 1, TitleRequired) + Unless(|title| <= 200, TitleTooLong)
  }

  /** `z.string().min(1).max(100)` on the author. */
  function AuthorIssues(author: string): (r: seq<Issue>)
    ensures r == [] <==> AuthorValid(author)
    ensures forall i :: i in r ==> i.field == Author
    ensures |author| == 0 ==> r == [AuthorRequired]
    ensures |author| > 100 ==> r == [AuthorTooLong]
  {
    Unless(|author| >= 1, AuthorRequired) + Unless(|author| <= 100, AuthorTooLong)
  }

  /** `z.number().min(1).int()` on the copies. */
  function CopiesIssues(copies: real): (r: seq<Issue>)
    ensures r == [] <==> CopiesValid(copies)
    ensures forall i :: i in r ==> i.field == Copies
    ensures CopiesTooFew in r <==> copies < 1.0
    ensures CopiesNotWhole in r <==> !IsWhole(copies)
  {
    Unless(copies >= 1.0, CopiesTooFew) + Unless(IsWhole(copies), CopiesNotWhole)
  }

  /**
    The issues of `createBookSchema`, field by field in the schema's order
    and, within a field, check by check: every failing check is reported.
    `description` and `available` accept any value.
   */
  function SchemaIssues(d: FormData): seq<Issue> {
    TitleIssues(d.title) + AuthorIssues(d.author) +
    Unless(|d.genre| >= 1, GenreRequired) + Unless(|d.isbn| >= 1, IsbnRequired) +
    CopiesIssues(d.copies)
  }

  predicate Reports(issues: seq<Issue>, field: Field) {
    exists i :: i in issues && i.field == field
  }

  lemma ReportsConcat(a: seq<Issue>, b: seq<Issue>, field: Field)
    ensures Reports(a + b, field) <==> Reports(a, field) || Reports(b, field)
  {
    if Reports(a + b, field) {
      var i :| i in a + b && i.field == field;
      assert i in a || i in b;
    }
    if Reports(a, field) {
      var i :| i in a && i.field == field;
      assert i in a + b;
    }
    if Reports(b, field) {
      var i :| i in b && i.field == field;
      assert i in a + b;
    }
  }

  /** The values pass the schema exactly when every field rule holds. */
  lemma ValidIff(d: FormData)
    ensures SchemaIssues(d) == [] <==>
      TitleValid(d.title) && AuthorValid(d.author) && d.genre != "" && d.isbn != "" && CopiesValid(d.copies)
  {
  }

  lemma OnlyField(r: seq<Issue>, owner: Field, f: Field)
    requires forall i :: i in r ==> i.field == owner
    ensures Reports(r, f) <==> r != [] && f == owner
  {
    if r != [] {
      assert r[0] in r;
    }
  }

  /** A field is reported when the issues of some part of the schema, each owned by one field, are non-empty for it. */
  lemma SchemaReports(d: FormData, f: Field)
    ensures Reports(SchemaIssues(d), f) <==>
      (f == Title && !TitleValid(d.title)) || (f == Author && !AuthorValid(d.author)) ||
      (f == Genre && d.genre == "") || (f == Isbn && d.isbn == "") || (f == Copies && !CopiesValid(d.copies))
  {
    var t, a := TitleIssues(d.title), AuthorIssues(d.author);
    var g, n := Unless(|d.genre| >= 1, GenreRequired), Unless(|d.isbn| >= 1, IsbnRequired);
    var c := CopiesIssues(d.copies);
    ReportsConcat(t + a + g + n, c, f);
    ReportsConcat(t + a + g, n, f);
    ReportsConcat(t + a, g, f);
    ReportsConcat(t, a, f);
    OnlyField(t, Title, f);
    OnlyField(a, Author, f);
    OnlyField(g, Genre, f);
    OnlyField(n, Isbn, f);
    OnlyField(c, Copies, f);
  }

  /** Each field is reported exactly when its own rule fails; `description` and `available` never are. */
  lemma IssuesPerField(d: FormData)
    ensures Reports(SchemaIssues(d), Title) <==> !TitleValid(d.title)
    ensures Reports(SchemaIssues(d), Author) <==> !AuthorValid(d.author)
    ensures Reports(SchemaIssues(d), Genre) <==> d.genre == ""
    ensures Reports(SchemaIssues(d), Isbn) <==> d.isbn == ""
    ensures Reports(SchemaIssues(d), Copies) <==> !CopiesValid(d.copies)
    ensures !Reports(SchemaIssues(d), Description) && !Reports(SchemaIssues(d), Available)
  {
    SchemaReports(d, Title);
    SchemaReports(d, Author);
    SchemaReports(d, Genre);
    SchemaReports(d, Isbn);
    SchemaReports(d, Copies);
    SchemaReports(d, Description);
    SchemaReports(d, Available);
  }

  /** The default values fail: the four required strings are empty, and nothing else is reported. */
  lemma DefaultValuesFail()
    ensures SchemaIssues(DefaultValues) == [TitleRequired, AuthorRequired, GenreRequired, IsbnRequired]
  {
    assert IsWhole(1.0);
  }

  /** The parsed values the schema hands to `onSubmit`, or its issues. */
  datatype Parsed = Issues(issues: seq<Issue>) | Valid(request: CreateBookRequest)

  function Parse(d: FormData): (p: Parsed)
    ensures p.Issues? <==> SchemaIssues(d) != []
    ensures p.Issues? ==> p.issues == SchemaIssues(d)
    ensures p.Valid? ==> p.request.copies as real == d.copies
    ensures p.Valid? ==> p.request == CreateBookRequest(d.title, d.author, d.genre, d.isbn, d.description,
                                                        p.request.copies, Some(d.available))
  {
    var issues := SchemaIssues(d);
    if issues != [] then Issues(issues)
    else
      assert d.copies >= 1.0 && IsWhole(d.copies);
      Valid(CreateBookRequest(d.title, d.author, d.genre, d.isbn, d.description, d.copies.Floor, Some(d.available)))
  }

  /** What a submit does: show the issues, or send `createBook` and show its effects. */
  datatype Outcome = ShowIssues(issues: seq<Issue>) | Sent(endpoint: BooksApi.Endpoint, effects: seq<Effect>)

  /** `form.handleSubmit(onSubmit)`, with the settled result of `createBook` as a parameter. */
  function Submit(d: FormData, result: MutationResult): (o: Outcome)
    ensures o.ShowIssues? <==> SchemaIssues(d) != []
    ensures o.ShowIssues? ==> o.issues == SchemaIssues(d)
    ensures o.Sent? ==> Parse(d).Valid? && o.endpoint == BooksApi.CreateBook(Parse(d).request)
    ensures o.Sent? ==> o.endpoint.bookData.title == d.title && o.endpoint.bookData.author == d.author &&
                        o.endpoint.bookData.genre == d.genre && o.endpoint.bookData.isbn == d.isbn &&
                        o.endpoint.bookData.description == d.description &&
                        o.endpoint.bookData.copies as real == d.copies &&
                        o.endpoint.bookData.available == Some(d.available)
  {
    match Parse(d)
    case Issues(issues) => ShowIssues(issues)
    case Valid(request) =>
      var effects :=
        match result
        case Succeeded => [ToastSuccess("Book created successfully"), Navigate("/books")]
        case Failed(error) => [ToastError(OrElse(error.dataMessage, "Failed to create book"))];
      Sent(BooksApi.CreateBook(request), effects)
  }

  /**
    A valid submit navigates to `/books` on success; on failure it shows the
    server's message or "Failed to create book", never the error's own `message`.
   */
  lemma SubmitEffects(d: FormData, error: MutationError, otherMessage: Option<string>)
    requires SchemaIssues(d) == []
    ensures Submit(d, Succeeded).effects == [ToastSuccess("Book created successfully"), Navigate("/books")]
    ensures Submit(d, Failed(error)).effects ==
      [ToastError(if error.dataMessage.Some? && error.dataMessage.value != "" then error.dataMessage.value
                  else "Failed to create book")]
    ensures Submit(d, Failed(error)) == Submit(d, Failed(error.(message := otherMessage)))
  {
  }

  /** `parseInt(e.target.value) || 1` of the copies input. */
  function CopiesInput(text: string): (copies: real)
    ensures IsWhole(copies) && copies != 0.0
  {
    ParseIntOr(text, 1) as real
  }

  /**
    An empty or unparsable text, and "0", become 1; so copies typed into the
    input never break the whole-number rule, and break the at-least-1 rule
    only when negative.
   */
  lemma CopiesInputValues(n: int, text: string)
    ensures CopiesInput("") == 1.0
    ensures CopiesInput(IntToString(n)) == if n == 0 then 1.0 else n as real
    ensures CopiesValid(CopiesInput(text)) <==> CopiesInput(text) > 0.0
  {
    ParseIntOrRendered(n, 1);
  }
}
