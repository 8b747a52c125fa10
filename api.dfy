/**
  What every endpoint definition shares: HTTP methods, cache tags, request
  descriptors, and the query-string builder both list endpoints use. A query
  string is a list of key/value pairs; percent-encoding is not modelled.
 */
module Api {
  import opened JsValues
  import opened Types

  datatype HttpMethod = GET | POST | PUT | PATCH | DELETE

  /** The two tag types the API slice declares, `'Book'` and `'Borrow'`. */
  datatype TagType = BookTag | BorrowTag

  /** A plain tag (`'Book'`) or an id-specific one (`{ type: 'Book', id }`). */
  datatype Tag = TypeTag(tagType: TagType) | IdTag(tagType: TagType, id: string)

  /** A value in a params object: `undefined`, a string, a number or a boolean. */
  datatype ParamValue = Undefined | Str(s: string) | Num(n: int) | Bool(b: bool)

  /** One entry of `Object.entries(params)`, in the object's key order. */
  type Param = (string, ParamValue)

  /** One `key=value` pair of a query string, before encoding. */
  type Pair = (string, string)

  /** A path, and the query string when the path carries a `?`. */
  datatype Url = Url(path: string, query: Option<seq<Pair>>)

  datatype Body =
    | NoBody
    | CreateBookBody(createBook: CreateBookRequest)
    | UpdateBookBody(updateBook: UpdateBookRequest)
    | AvailabilityBody(available: bool)
    | CreateBorrowBody(createBorrow: CreateBorrowRequest)

  datatype Request = Request(verb: HttpMethod, url: Url, body: Body)

  /** A GET of a fixed path without a query string: what `query: () => 'path'` describes. */
  function Get(path: string): (r: Request)
    ensures r.verb == GET && r.url.path == path && r.url.query.None? && r.body.NoBody?
  {
    Request(GET, Url(path, None), NoBody)
  }

  /** The builder keeps a value unless it is `undefined` or the empty string. */
  predicate Present(v: ParamValue) {
    v != Undefined && v != Str("")
  }

  /** `String(value)`. */
  function Render(v: ParamValue): (s: string)
    ensures v.Str? ==> s == v.s
    ensures v.Bool? ==> s == (if v.b then "true" else "false")
    ensures v.Num? ==> s == IntToString(v.n)
  {
    match v
    case Undefined => "undefined"
    case Str(s) => s
    case Num(n) => IntToString(n)
    case Bool(b) => if b then "true" else "false"
  }

  /** The pairs the builder appends for `params`, in entry order. */
  function Kept(params: seq<Param>): seq<Pair> {
    if params == [] then []
    else
      var (key, value) := params[|params| - 1];
      Kept(params[..|params| - 1]) + (if Present(value) then [(key, Render(value))] else [])
  }

  /** The mutable `URLSearchParams` buffer: entries in append order. */
  class SearchParams {
    var entries: seq<Pair>

    constructor ()
      ensures entries == []
    {
      entries := [];
    }

    method Append(key: string, value: string)
      modifies this
      ensures entries == old(entries) + [(key, value)]
    {
      entries := entries + [(key, value)];
    }
  }

  /**
    The loop of the list endpoints' `query`: walk the entries of `params`,
    appending `(key, String(value))` for each value that is neither
    `undefined` nor `''`.
   */
  method BuildSearchParams(params: seq<Param>) returns (pairs: seq<Pair>)
    ensures pairs == Kept(params)
  {
    var searchParams := new SearchParams();
    for i := 0 to |params|
      invariant searchParams.entries == Kept(params[..i])
    {
      var (key, value) := params[i];
      assert params[..i + 1][..i] == params[..i];
      if value != Undefined && value != Str("") {
        searchParams.Append(key, Render(value));
      }
    }
    assert params[..|params|] == params;
    pairs := searchParams.entries;
  }

  /** `key=value` pairs joined by `&`, as `toString` lays them out (without encoding). */
  function Join(pairs: seq<Pair>): string {
    if pairs == [] then ""
    else if |pairs| == 1 then pairs[0].0 + "=" + pairs[0].1
    else pairs[0].0 + "=" + pairs[0].1 + "&" + Join(pairs[1..])
  }

  /** The URL text: the path, then `?` and the joined pairs when there is a query. */
  function Href(url: Url): string {
    match url.query
    case None => url.path
    case Some(pairs) => url.path + "?" + Join(pairs)
  }

  lemma {:induction false} KeptAppend(a: seq<Param>, b: seq<Param>)
    ensures Kept(a + b) == Kept(a) + Kept(b)
  {
    if b == [] {
      assert a + b == a;
    } else {
      var b' := b[..|b| - 1];
      assert (a + b)[..|a + b| - 1] == a + b';
      assert (a + b)[|a + b| - 1] == b[|b| - 1];
      KeptAppend(a, b');
    }
  }

  /**
    One entry is kept exactly when its value is neither `undefined` nor `''`,
    and then it is rendered with `String`: `false` and `0` survive.
   */
  lemma KeptSingle(key: string, value: ParamValue)
    ensures Kept([(key, value)]) == if Present(value) then [(key, Render(value))] else []
  {
    assert [(key, value)][..0] == [];
  }

  /** Kept pairs preserve the entry order: those of a prefix come first. */
  lemma KeptCons(p: Param, rest: seq<Param>)
    ensures Kept([p] + rest) == Kept([p]) + Kept(rest)
  {
    KeptAppend([p], rest);
  }

  /**
    Membership: a pair is in the query string exactly when some entry with a
    value that is neither `undefined` nor `''` renders to it.
   */
  lemma {:induction false} KeptMembership(params: seq<Param>, pair: Pair)
    ensures pair in Kept(params) <==>
      exists i :: 0 <= i < |params| && Present(params[i].1) && pair == (params[i].0, Render(params[i].1))
  {
    if params != [] {
      var init := params[..|params| - 1];
      KeptMembership(init, pair);
      assert forall i :: 0 <= i < |init| ==> init[i] == params[i];
    }
  }

  /** Nothing is dropped from a params list whose values are all present. */
  lemma {:induction false} KeptLength(params: seq<Param>)
    ensures |Kept(params)| <= |params|
    ensures (forall i :: 0 <= i < |params| ==> Present(params[i].1)) ==> |Kept(params)| == |params|
  {
    if params != [] {
      KeptLength(params[..|params| - 1]);
    }
  }

  lemma {:induction false} JoinEmpty(pairs: seq<Pair>)
    ensures Join(pairs) == "" <==> pairs == []
  {
    if pairs != [] {
      assert '=' in Join(pairs) by {
        var p := pairs[0].0 + "=";
        assert Join(pairs)[|pairs[0].0|] == p[|pairs[0].0|];
      }
    }
  }

  /**
    A URL with a query always begins with its path and `?`, and is exactly
    `path?` when no pair survives.
   */
  lemma HrefWithQuery(path: string, pairs: seq<Pair>)
    ensures Href(Url(path, Some(pairs)))[..|path| + 1] == path + "?"
    ensures Href(Url(path, Some(pairs))) == path + "?" <==> pairs == []
  {
    JoinEmpty(pairs);
    var h := Href(Url(path, Some(pairs)));
    assert h == (path + "?") + Join(pairs);
    if h == path + "?" {
      assert |Join(pairs)| == 0;
    }
  }
}
