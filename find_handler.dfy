/**
 * The two read handlers: the thread handler and the search handler. Each
 * normalises its query parameters (defaults, integer overrides, the sort
 * whitelist), calls its collaborator once, and maps the outcome to a status.
 * The collaborator is a parameter; the exchange records the call made, if any.
 */
module FindHandler {
  import opened Wrappers
  import opened HttpStatus
  import opened Models

  const DefaultLimit: int := 20
  const DefaultOffset: int := 0
  const DefaultSort: string := "asc"

  /** Range of the platform's `int` (64 bits), which bounds what Atoi accepts. */
  const MaxInt: int := 0x7fff_ffff_ffff_ffff
  const MinInt: int := -0x8000_0000_0000_0000

  /** A request's query string: the first value of each parameter. */
  type QueryParams = map<string, string>

  /** The first value of a parameter, or "" when it is absent. */
  function Param(q: QueryParams, name: string): string {
    if name in q then q[name] else ""
  }

  predicate IsDecimal(s: string) {
    |s| > 0 && forall i :: 0 <= i < |s| ==> '0' <= s[i] <= '9'
  }

  function DecimalValue(ds: string): nat
    requires forall i :: 0 <= i < |ds| ==> '0' <= ds[i] <= '9'
  {
    if ds == [] then 0 else DecimalValue(ds[..|ds| - 1]) * 10 + (ds[|ds| - 1] as int - '0' as int)
  }

  /** The text after one leading '+' or '-', if there is one. */
  function Unsigned(s: string): string {
    if |s| > 0 && (s[0] == '+' || s[0] == '-') then s[1..] else s
  }

  /**
   * Decimal parsing as the standard library's Atoi does it: an optional sign,
   * then one or more decimal digits, with a value that fits in the platform's
   * 64-bit int; anything else fails.
   */
  function Atoi(s: string): (r: Option<int>)
    ensures r.Some? ==> MinInt <= r.value <= MaxInt
    ensures r.Some? ==> IsDecimal(Unsigned(s))
    ensures s == "" ==> r.None?
  {
    var digits := Unsigned(s);
    if !IsDecimal(digits) then None
    else
      var magnitude: int := DecimalValue(digits);
      var v := if s[0] == '-' then -magnitude else magnitude;
      if MinInt <= v <= MaxInt then Some(v) else None
  }

  /** The decimal digits of `n`, most significant first. */
  function Digits(n: nat): string
  {
    if n < 10 then [('0' as int + n) as char] else Digits(n / 10) + [('0' as int + n % 10) as char]
  }

  /** Decimal formatting, with a '-' for negative values. */
  function Format(n: int): string {
    if n < 0 then "-" + Digits(-n) else Digits(n)
  }

  lemma {:induction false} DigitsValue(n: nat)
    ensures IsDecimal(Digits(n)) && DecimalValue(Digits(n)) == n
  {
    if n >= 10 {
      DigitsValue(n / 10);
      var ds := Digits(n);
      assert ds[..|ds| - 1] == Digits(n / 10);
    }
  }

  /** Atoi reads back every int that Format writes. */
  lemma AtoiFormat(n: int)
    requires MinInt <= n <= MaxInt
    ensures Atoi(Format(n)) == Some(n)
  {
    if n < 0 {
      DigitsValue(-n);
      assert Unsigned(Format(n)) == Digits(-n);
    } else {
      DigitsValue(n);
    }
  }

  /** A numeric parameter: the default, replaced only when the value parses as an integer. */
  function IntParam(q: QueryParams, name: string, default: int): (v: int)
    ensures Atoi(Param(q, name)).Some? ==> v == Atoi(Param(q, name)).value
    ensures Atoi(Param(q, name)).None? ==> v == default
  {
    var s := Param(q, name);
    if s != "" then
      match Atoi(s)
      case Some(n) => n
      case None => default
    else default
  }

  /** The sort parameter: "asc" unless the request says exactly "asc" or "desc". */
  function SortParam(q: QueryParams): (s: string)
    ensures s == "asc" || s == "desc"
    ensures s == "desc" <==> Param(q, "sort") == "desc"
  {
    var s := Param(q, "sort");
    if s != "" && (s == "asc" || s == "desc") then s else DefaultSort
  }

  datatype ThreadRequest = ThreadRequest(parentIdHex: string, limit: int, offset: int, sort: string)

  /** The thread handler's parameters, or None when `parent` is missing or empty. */
  function ThreadParams(q: QueryParams): (r: Option<ThreadRequest>)
    ensures r.None? <==> Param(q, "parent") == ""
    ensures r.Some? ==> r.value.parentIdHex == Param(q, "parent")
    ensures r.Some? ==> r.value.limit == IntParam(q, "limit", DefaultLimit)
    ensures r.Some? ==> r.value.offset == IntParam(q, "offset", DefaultOffset)
    ensures r.Some? ==> r.value.sort == SortParam(q)
    ensures r.Some? ==> r.value.sort == "asc" || r.value.sort == "desc"
  {
    var parent := Param(q, "parent");
    if parent == "" then None
    else
      var limit := IntParam(q, "limit", DefaultLimit);
      var offset := IntParam(q, "offset", DefaultOffset);
      var sort := SortParam(q);
      Some(ThreadRequest(parent, limit, offset, sort))
  }

  /** With only `parent` given, the thread handler asks for the first 20 records, oldest first. */
  lemma ThreadDefaults(q: QueryParams)
    requires Param(q, "parent") != ""
    requires "limit" !in q && "offset" !in q && "sort" !in q
    ensures ThreadParams(q) == Some(ThreadRequest(Param(q, "parent"), 20, 0, "asc"))
  {
  }

  /**
   * Parsed limits are not range-checked: any 64-bit value, zero and
   * negative values included, reaches the getter as written.
   */
  lemma LimitNotRangeChecked(q: QueryParams, n: int)
    requires Param(q, "parent") != ""
    requires MinInt <= n <= MaxInt
    requires Param(q, "limit") == Format(n)
    ensures ThreadParams(q).value.limit == n
  {
    AtoiFormat(n);
  }

  datatype Response = Response(status: int, comments: seq<Comment>, error: string)

  /** The call a handler made to its collaborator (None: no call) and the response it wrote. */
  datatype Exchange<Req> = Exchange(call: Option<Req>, response: Response)

  /**
   * The thread handler: 400 without calling the getter when `parent` is
   * missing; otherwise one call with the normalised parameters, then 200
   * with the getter's comments or 500 on any error, InvalidID included.
   */
  function GetHandler(q: QueryParams, getter: ThreadRequest -> Result<seq<Comment>, Error>): (x: Exchange<ThreadRequest>)
    ensures x.call.None? <==> Param(q, "parent") == ""
    ensures x.call.None? ==> x.response.status == StatusBadRequest
    ensures x.call.Some? ==> x.call == ThreadParams(q)
    ensures x.call.Some? ==> (x.response.status == StatusOK <==> getter(x.call.value).Ok?)
    ensures x.call.Some? && getter(x.call.value).Ok? ==> x.response.comments == getter(x.call.value).value
    ensures x.call.Some? && getter(x.call.value).Err? ==> x.response.status == StatusInternalServerError
  {
    match ThreadParams(q)
    case None => Exchange(None, Response(StatusBadRequest, [], "parent ID is required"))
    case Some(req) =>
      match getter(req)
      case Err(e) =>
        var message := if e == InvalidID then "invalid ID" else "UPS!!";
        Exchange(Some(req), Response(StatusInternalServerError, [], message))
      case Ok(comments) => Exchange(Some(req), Response(StatusOK, comments, ""))
  }

  datatype SearchRequest = SearchRequest(query: string, limit: int, offset: int)

  /**
   * The search handler: always one call, with `query` as given (possibly
   * empty) and the same limit and offset rules as the thread handler; 200
   * with the searcher's comments, or 500 on error.
   */
  function SearchHandler(q: QueryParams, searcher: SearchRequest -> Result<seq<Comment>, Error>): (x: Exchange<SearchRequest>)
    ensures x.call.Some? && x.call.value.query == Param(q, "query")
    ensures x.call.value.limit == IntParam(q, "limit", DefaultLimit)
    ensures x.call.value.offset == IntParam(q, "offset", DefaultOffset)
    ensures x.response.status == StatusOK <==> searcher(x.call.value).Ok?
    ensures searcher(x.call.value).Ok? ==> x.response.comments == searcher(x.call.value).value
    ensures searcher(x.call.value).Err? ==> x.response.status == StatusInternalServerError
  {
    var req := SearchRequest(Param(q, "query"), IntParam(q, "limit", DefaultLimit), IntParam(q, "offset", DefaultOffset));
    match searcher(req)
    case Err(_) => Exchange(Some(req), Response(StatusInternalServerError, [], "UPS!!"))
    case Ok(comments) => Exchange(Some(req), Response(StatusOK, comments, ""))
  }
}
