/**
 * The reviews API's three handlers, as the classification of a request into a
 * response: list (GET /), update a status (PATCH /:id) and fetch one (GET /:id).
 * The vendor is an oracle from the call made to the reply obtained; the list handler
 * also serialises the validated query into the search parameters it sends.
 */
module ReviewsRouter {
  import opened Maybe
  import opened JsRuntime
  import opened SearchParams
  import opened HostawayReview
  import opened Func
  import opened ReviewsQuery
  import HostawayMock

  /** The Authorization header an administrator sends. */
  const AdminHeader := "Bearer admin"

  /** What a response carries besides its name and message. */
  datatype ResponseData =
    | NoData
    | Errors(errors: seq<ValidationError>)
    | VendorData(response: HostawayResponse)
    | ErrorDetail(error: string)

  /** The HTTP status and the `{name, message, data}` body. */
  datatype ApiResponse = ApiResponse(httpStatus: int, name: string, message: string, data: ResponseData)

  /** A request to the vendor, with the caller's Authorization header passed along. */
  datatype VendorCall =
    | ListCall(query: seq<Pair>, authorization: Option<string>)
    | GetCall(url: string, authorization: Option<string>)
    | PatchCall(url: string, authorization: Option<string>)

  /** What a vendor call gave back: a body, a null or undefined body, or a thrown error
      (with the HTTP status of its response, when there was one). */
  datatype VendorReply =
    | Body(response: HostawayResponse)
    | NullBody
    | UndefinedBody
    | Threw(message: string, httpStatus: Option<int>)

  /** A handled request: the response and the vendor call made, if any. */
  datatype Handled = Handled(response: ApiResponse, call: Option<VendorCall>)

  /** The TypeError raised by reading `status` off a missing body. */
  function MissingBodyError(reply: VendorReply): string {
    if reply.NullBody? then "Cannot read properties of null (reading 'status')"
    else "Cannot read properties of undefined (reading 'status')"
  }

  /** The 500 response of a handler's catch block: a fixed message, the error text in `data.error`. */
  function Internal(message: string, error: string): ApiResponse {
    ApiResponse(500, "InternalServerError", message, ErrorDetail(error))
  }

  const InvalidIdMessage := "Please provide a valid review ID"

  /** `!id || isNaN(Number(id))`. */
  predicate InvalidId(id: string, rt: Runtime) {
    id == [] || rt.toNumber(id).NaN?
  }

  // ---------------------------------------------------------------------------
  // Serialising the validated query

  /** One own property of the DTO: skipped when undefined or null, set once when it is a
      single value, appended once per element when it is an array. */
  datatype EntryValue = Skip | Scalar(text: string) | Items(texts: seq<string>)

  datatype Entry = Entry(key: string, value: EntryValue)

  function OptionalNumber(n: Option<Number>, rt: Runtime): EntryValue {
    if n.None? then Skip else Scalar(NumberToString(n.value, rt))
  }

  function QueryValueEntry(v: QueryValue): EntryValue {
    match v
    case Single(s) => Scalar(s)
    case Repeated(vs) => Items(vs)
  }

  /** `String(date)`: the time value's text, "Invalid Date" for an invalid one. */
  function OptionalDate(t: Option<Option<int>>, rt: Runtime): EntryValue {
    if t.None? then Skip
    else if t.value.None? then Scalar("Invalid Date")
    else Scalar(rt.dateToString(t.value.value))
  }

  /** The channel codes as text: `String(code)`, "NaN" for one that did not parse. */
  function ChannelTexts(cs: seq<ParsedInt>, rt: Runtime): seq<string> {
    seq(|cs|, i requires 0 <= i < |cs| => ParsedIntToString(cs[i], rt))
  }

  /** `Object.entries(queryDto)` with each value as the text that is sent. */
  function Entries(d: ReviewsQueryDto, rt: Runtime): seq<Entry>
  {
    [ Entry("listingId", OptionalNumber(d.listingId, rt)),
      Entry("type", if d.reviewType.None? then Skip else QueryValueEntry(d.reviewType.value)),
      Entry("channels", if d.channels.None? then Skip
                        else Items(ChannelTexts(d.channels.value, rt))),
      Entry("from", OptionalDate(d.from, rt)),
      Entry("to", OptionalDate(d.to, rt)),
      Entry("minRating", OptionalNumber(d.minRating, rt)),
      Entry("categories", if d.categories.None? then Skip else Items(d.categories.value)),
      Entry("sortBy", QueryValueEntry(d.sortBy)),
      Entry("sortOrder", QueryValueEntry(d.sortOrder)),
      Entry("limit", OptionalNumber(d.limit, rt)),
      Entry("offset", Scalar(NumberToString(d.offset, rt))) ]
  }

  /** The entries follow the declared properties, in order. */
  lemma EntriesFollowDeclaration(d: ReviewsQueryDto, rt: Runtime)
    ensures |Entries(d, rt)| == |FieldOrder|
    ensures forall i :: 0 <= i < |Entries(d, rt)| ==> Entries(d, rt)[i].key == FieldOrder[i]
  {
  }

  /** An entry is skipped exactly when its property is undefined; `sortBy`, `sortOrder`
      and `offset`, which have initialisers, are always sent. */
  lemma EntriesSkipUndefined(d: ReviewsQueryDto, rt: Runtime)
    ensures var es := Entries(d, rt);
            && (es[0].value.Skip? <==> d.listingId.None?)
            && (es[1].value.Skip? <==> d.reviewType.None?)
            && (es[2].value.Skip? <==> d.channels.None?)
            && (es[3].value.Skip? <==> d.from.None?)
            && (es[4].value.Skip? <==> d.to.None?)
            && (es[5].value.Skip? <==> d.minRating.None?)
            && (es[6].value.Skip? <==> d.categories.None?)
            && (es[9].value.Skip? <==> d.limit.None?)
            && !es[7].value.Skip? && !es[8].value.Skip? && !es[10].value.Skip?
  {
  }

  /** No two entries share a key, as for the properties of one object. */
  predicate DistinctKeys(es: seq<Entry>) {
    forall i, j :: 0 <= i < j < |es| ==> es[i].key != es[j].key
  }

  /** The texts an entry contributes under its key. */
  function EntryTexts(v: EntryValue): seq<string> {
    match v
    case Skip => []
    case Scalar(t) => [t]
    case Items(ts) => ts
  }

  function EntryPairs(e: Entry): (ps: seq<Pair>)
    ensures |ps| == |EntryTexts(e.value)|
    ensures forall i :: 0 <= i < |ps| ==> ps[i] == (e.key, EntryTexts(e.value)[i])
  {
    var ts := EntryTexts(e.value);
    seq(|ts|, i requires 0 <= i < |ts| => (e.key, ts[i]))
  }

  /** The search parameters that the entries produce, in order. */
  function QueryPairs(es: seq<Entry>): seq<Pair> {
    if es == [] then [] else QueryPairs(es[..|es| - 1]) + EntryPairs(es[|es| - 1])
  }

  /** Only the entries' keys name pairs. */
  lemma {:induction false} QueryPairsKeys(es: seq<Entry>, key: string)
    requires forall i :: 0 <= i < |es| ==> es[i].key != key
    ensures GetAll(QueryPairs(es), key) == []
  {
    if es != [] {
      QueryPairsKeys(es[..|es| - 1], key);
      GetAllAppend(QueryPairs(es[..|es| - 1]), EntryPairs(es[|es| - 1]), key);
      assert !HasKey(EntryPairs(es[|es| - 1]), key);
    }
  }

  /** Reading the parameters back: a key gets exactly the texts of its entry, in order. */
  lemma {:induction false} GetAllOfQueryPairs(es: seq<Entry>, k: nat)
    requires DistinctKeys(es) && k < |es|
    ensures GetAll(QueryPairs(es), es[k].key) == EntryTexts(es[k].value)
  {
    var key := es[k].key;
    var init := es[..|es| - 1];
    var last := es[|es| - 1];
    assert QueryPairs(es) == QueryPairs(init) + EntryPairs(last);
    GetAllAppend(QueryPairs(init), EntryPairs(last), key);
    if k == |es| - 1 {
      assert forall i :: 0 <= i < |init| ==> init[i].key != key by {
        forall i | 0 <= i < |init| ensures init[i].key != key {
          assert init[i] == es[i];
        }
      }
      QueryPairsKeys(init, key);
      GetAllOfEntryPairs(last);
    } else {
      assert init[k] == es[k];
      assert last.key != key;
      GetAllOfQueryPairs(init, k);
      assert !HasKey(EntryPairs(last), key);
    }
  }

  /** An entry's own pairs give back its texts. */
  lemma {:induction false} GetAllOfEntryPairs(e: Entry)
    ensures GetAll(EntryPairs(e), e.key) == EntryTexts(e.value)
    decreases |EntryTexts(e.value)|
  {
    var ts := EntryTexts(e.value);
    if ts != [] {
      var init := Entry(e.key, Items(ts[..|ts| - 1]));
      GetAllOfEntryPairs(init);
      assert EntryPairs(e) == EntryPairs(init) + [(e.key, ts[|ts| - 1])];
      GetAllAppend(EntryPairs(init), [(e.key, ts[|ts| - 1])], e.key);
      assert ts == ts[..|ts| - 1] + [ts[|ts| - 1]];
    }
  }

  /** A key not yet set before entry `i` is absent from the pairs built so far. */
  lemma KeyAbsentBefore(es: seq<Entry>, i: nat)
    requires DistinctKeys(es) && i < |es|
    ensures !HasKey(QueryPairs(es[..i]), es[i].key)
  {
    QueryPairsKeys(es[..i], es[i].key);
  }

  /** The query-string builder: for each entry in order, skip it, `set` it, or `append`
      each of its elements. */
  method BuildQueryParams(es: seq<Entry>) returns (params: SearchParams.UrlSearchParams)
    requires DistinctKeys(es)
    ensures fresh(params)
    ensures params.pairs == QueryPairs(es)
  {
    params := new SearchParams.UrlSearchParams();
    var i := 0;
    while i < |es|
      invariant 0 <= i <= |es|
      invariant fresh(params)
      invariant params.pairs == QueryPairs(es[..i])
    {
      var e := es[i];
      assert es[..i + 1] == es[..i] + [e];
      assert QueryPairs(es[..i + 1]) == QueryPairs(es[..i]) + EntryPairs(e);
      match e.value {
        case Skip =>
        case Scalar(t) =>
          KeyAbsentBefore(es, i);
          params.Set(e.key, t);
        case Items(ts) =>
          AppendEach(params, e.key, ts);
      }
      i := i + 1;
    }
    assert es[..i] == es;
  }

  /** `value.forEach(v => queryParams.append(key, v))`: one pair per text, in order. */
  method AppendEach(params: SearchParams.UrlSearchParams, key: string, ts: seq<string>)
    modifies params
    ensures params.pairs == old(params.pairs) + EntryPairs(Entry(key, Items(ts)))
  {
    var j := 0;
    while j < |ts|
      invariant 0 <= j <= |ts|
      invariant params.pairs == old(params.pairs) + EntryPairs(Entry(key, Items(ts[..j])))
    {
      assert EntryPairs(Entry(key, Items(ts[..j + 1]))) == EntryPairs(Entry(key, Items(ts[..j]))) + [(key, ts[j])];
      params.Append(key, ts[j]);
      j := j + 1;
    }
    assert ts[..j] == ts;
  }

  /** The DTO's entries have distinct keys. */
  lemma EntriesDistinct(d: ReviewsQueryDto, rt: Runtime)
    ensures DistinctKeys(Entries(d, rt))
  {
  }

  /** The pairs that a DTO is sent as, read back key by key. */
  lemma GetAllOfEntries(d: ReviewsQueryDto, rt: Runtime, k: nat)
    requires k < 11
    ensures GetAll(QueryPairs(Entries(d, rt)), Entries(d, rt)[k].key) == EntryTexts(Entries(d, rt)[k].value)
  {
    EntriesDistinct(d, rt);
    GetAllOfQueryPairs(Entries(d, rt), k);
  }

  /**
   * The mock reads back the channel list of a valid query: each code, sent as its
   * numeral, is compared as that number (given that `Number` reads a canonical numeral
   * correctly).
   */
  lemma ChannelsRoundTrip(d: ReviewsQueryDto, rt: Runtime)
    requires d.channels.Some? && d.channels.value != [] && AllChannels(d.channels.value)
    requires forall i :: 0 <= i < |d.channels.value| ==>
               rt.toNumber(IntToString(d.channels.value[i].value)) == Finite(d.channels.value[i].value as real)
    ensures var cs := d.channels.value;
            HostawayMock.ParseQuery(QueryPairs(Entries(d, rt)), rt).channels ==
              Some(seq(|cs|, i requires 0 <= i < |cs| => HostawayMock.ChannelNumber(Finite(cs[i].value as real))))
  {
    var cs := d.channels.value;
    forall i | 0 <= i < |cs|
      ensures ChannelTexts(cs, rt)[i] == IntToString(cs[i].value)
    {
      ChannelCodesAre(cs[i].value);
    }
    ChannelsSent(d, rt);
    ChannelNumerals(QueryPairs(Entries(d, rt)), cs, rt);
  }

  /** The channel codes are sent as their numerals, under "channels". */
  lemma ChannelsSent(d: ReviewsQueryDto, rt: Runtime)
    requires d.channels.Some?
    ensures GetAll(QueryPairs(Entries(d, rt)), "channels") == ChannelTexts(d.channels.value, rt)
  {
    GetAllOfEntries(d, rt, 2);
  }

  /** Channel codes sent as numerals under "channels" come back as those numbers. */
  lemma ChannelNumerals(ps: seq<Pair>, cs: seq<ParsedInt>, rt: Runtime)
    requires cs != [] && forall i :: 0 <= i < |cs| ==> cs[i].Int?
    requires GetAll(ps, "channels") == ChannelTexts(cs, rt)
    requires forall i :: 0 <= i < |cs| ==> rt.toNumber(ChannelTexts(cs, rt)[i]) == Finite(cs[i].value as real)
    ensures HostawayMock.ParseQuery(ps, rt).channels ==
              Some(seq(|cs|, i requires 0 <= i < |cs| => HostawayMock.ChannelNumber(Finite(cs[i].value as real))))
  {
    var texts := GetAll(ps, "channels");
    HostawayMock.ListParamIsGetAll(ps, "channels");
    ParsedChannels(ps, texts, rt);
    var parsed := seq(|texts|, i requires 0 <= i < |texts| => HostawayMock.ToChannelFilter(texts[i], rt));
    var expected := seq(|cs|, i requires 0 <= i < |cs| => HostawayMock.ChannelNumber(Finite(cs[i].value as real)));
    forall i | 0 <= i < |cs|
      ensures parsed[i] == expected[i]
    {
      assert texts[i] == ChannelTexts(cs, rt)[i];
    }
    assert parsed == expected;
  }

  /** The mock's channel filters are its list parameter's elements, each read by `Number`. */
  lemma ParsedChannels(ps: seq<Pair>, texts: seq<string>, rt: Runtime)
    requires HostawayMock.ListParam(ps, "channels") == Some(texts)
    ensures HostawayMock.ParseQuery(ps, rt).channels ==
              Some(seq(|texts|, i requires 0 <= i < |texts| => HostawayMock.ToChannelFilter(texts[i], rt)))
  {
  }

  /** The mock reads back the category list of a query unchanged. */
  lemma CategoriesRoundTrip(d: ReviewsQueryDto, rt: Runtime)
    requires d.categories.Some? && d.categories.value != []
    ensures HostawayMock.ParseQuery(QueryPairs(Entries(d, rt)), rt).categories == d.categories
  {
    var ps := QueryPairs(Entries(d, rt));
    GetAllOfEntries(d, rt, 6);
    assert Entries(d, rt)[6] == Entry("categories", Items(d.categories.value));
    HostawayMock.ListParamIsGetAll(ps, "categories");
  }

  // ---------------------------------------------------------------------------
  // GET /

  /** The response to the vendor's reply for the list. */
  function ListOutcome(reply: VendorReply): (res: ApiResponse)
    ensures reply.Body? && reply.response.status == Success ==>
              res == ApiResponse(200, "Success", "Reviews retrieved successfully", VendorData(reply.response))
    ensures reply.Body? && reply.response.status != Success ==>
              res == ApiResponse(400, "HostawayError", "Failed to fetch reviews", NoData)
    ensures !reply.Body? ==>
              res == Internal("Failed to fetch reviews", if reply.Threw? then reply.message else MissingBodyError(reply))
  {
    match reply
    case Body(r) =>
      if r.status != Success then ApiResponse(400, "HostawayError", "Failed to fetch reviews", NoData)
      else ApiResponse(200, "Success", "Reviews retrieved successfully", VendorData(r))
    case Threw(msg, _) => Internal("Failed to fetch reviews", msg)
    case _ => Internal("Failed to fetch reviews", MissingBodyError(reply))
  }

  /**
   * GET /: convert and validate the query; an invalid one is answered with 400 and the
   * first message, and the vendor is not called. A valid one is serialised and sent,
   * and the vendor's reply decides the response.
   */
  method ListReviews(query: map<string, QueryValue>, authorization: Option<string>, rt: Runtime,
                     vendor: VendorCall -> VendorReply) returns (h: Handled)
    ensures var d := Instantiate(query, rt);
            !Valid(d) ==>
              h == Handled(ApiResponse(400, "ValidationError", ValidateDto(FieldErrors(d)).firstErrorMessage,
                                       Errors(FieldErrors(d))), None)
    ensures var d := Instantiate(query, rt);
            Valid(d) ==>
              var call := ListCall(QueryPairs(Entries(d, rt)), authorization);
              h == Handled(ListOutcome(vendor(call)), Some(call))
  {
    var d := Instantiate(query, rt);
    var errors := ValidateDto(FieldErrors(d));
    ValidationOutcome(d);
    if errors.Failed? {
      return Handled(ApiResponse(400, "ValidationError", errors.firstErrorMessage, Errors(errors.validationResult)), None);
    }
    EntriesDistinct(d, rt);
    var params := BuildQueryParams(Entries(d, rt));
    var call := ListCall(params.pairs, authorization);
    h := Handled(ListOutcome(vendor(call)), Some(call));
  }

  // ---------------------------------------------------------------------------
  // PATCH /:id

  /** `${status}` of the raw `status` query value: "undefined" when absent, the array's
      comma-joined text when repeated. */
  function StatusText(query: map<string, QueryValue>): string {
    if "status" !in query then "undefined"
    else match query["status"]
      case Single(s) => s
      case Repeated(vs) => Join(vs, ',')
  }

  /** The vendor URL of a status update. */
  function PatchUrl(id: string, query: map<string, QueryValue>): string {
    HostawayMock.ReviewsUrl + "/" + id + "?status=" + StatusText(query)
  }

  /** The response to the vendor's reply for a status update. */
  function PatchOutcome(reply: VendorReply): (res: ApiResponse)
    ensures reply.Body? && reply.response.status == Success ==>
              res == ApiResponse(200, "Success", "Review status updated successfully", VendorData(reply.response))
    ensures reply.Body? && reply.response.status != Success ==>
              res == ApiResponse(404, "NotFoundError", "Review not found or could not update", NoData)
    ensures !reply.Body? ==>
              res == Internal("Failed to update review status",
                              if reply.Threw? then reply.message else MissingBodyError(reply))
  {
    match reply
    case Body(r) =>
      if r.status != Success then ApiResponse(404, "NotFoundError", "Review not found or could not update", NoData)
      else ApiResponse(200, "Success", "Review status updated successfully", VendorData(r))
    case Threw(msg, _) => Internal("Failed to update review status", msg)
    case _ => Internal("Failed to update review status", MissingBodyError(reply))
  }

  /**
   * PATCH /:id, checked in this order: the administrator header (403), the id (400),
   * the query as a list query (400 with the first message); only then is the vendor
   * called, and its reply decides the response.
   */
  function PatchReview(id: string, query: map<string, QueryValue>, authorization: Option<string>,
                       rt: Runtime, vendor: VendorCall -> VendorReply): (h: Handled)
    ensures authorization != Some(AdminHeader) ==>
              h == Handled(ApiResponse(403, "Forbidden", "Admin access required", NoData), None)
    ensures authorization == Some(AdminHeader) && InvalidId(id, rt) ==>
              h == Handled(ApiResponse(400, "ValidationError", InvalidIdMessage, NoData), None)
    ensures authorization == Some(AdminHeader) && !InvalidId(id, rt) ==>
              h == ValidatedPatch(id, query, authorization, rt, vendor)
    ensures h.call.Some? <==> authorization == Some(AdminHeader) && !InvalidId(id, rt) && Valid(Instantiate(query, rt))
  {
    if authorization != Some(AdminHeader) then
      Handled(ApiResponse(403, "Forbidden", "Admin access required", NoData), None)
    else if InvalidId(id, rt) then
      Handled(ApiResponse(400, "ValidationError", InvalidIdMessage, NoData), None)
    else
      ValidatedPatch(id, query, authorization, rt, vendor)
  }

  /** The part of PATCH /:id after the header and the id have passed: an invalid query
      gets 400 with the first message and no vendor call; a valid one is sent on. */
  function ValidatedPatch(id: string, query: map<string, QueryValue>, authorization: Option<string>,
                          rt: Runtime, vendor: VendorCall -> VendorReply): (h: Handled)
    ensures var d := Instantiate(query, rt);
            !Valid(d) ==>
              h == Handled(ApiResponse(400, "ValidationError", ValidateDto(FieldErrors(d)).firstErrorMessage,
                                       Errors(FieldErrors(d))), None)
    ensures Valid(Instantiate(query, rt)) ==>
              var call := PatchCall(PatchUrl(id, query), authorization);
              h == Handled(PatchOutcome(vendor(call)), Some(call))
  {
    var d := Instantiate(query, rt);
    var errors := ValidateDto(FieldErrors(d));
    ValidationOutcome(d);
    if errors.Failed? then
      Handled(ApiResponse(400, "ValidationError", errors.firstErrorMessage, Errors(errors.validationResult)), None)
    else
      var call := PatchCall(PatchUrl(id, query), authorization);
      Handled(PatchOutcome(vendor(call)), Some(call))
  }

  /** The status is not one of the query's declared fields, so no status text is ever
      rejected: it reaches the vendor URL as it is. */
  lemma AnyStatusIsForwarded(id: string, query: map<string, QueryValue>, status: string, rt: Runtime,
                             vendor: VendorCall -> VendorReply)
    requires !InvalidId(id, rt) && Valid(Instantiate(query, rt))
    ensures var h := PatchReview(id, query["status" := Single(status)], Some(AdminHeader), rt, vendor);
            h.call == Some(PatchCall(HostawayMock.ReviewsUrl + "/" + id + "?status=" + status, Some(AdminHeader)))
  {
    assert Instantiate(query["status" := Single(status)], rt) == Instantiate(query, rt);
  }

  // ---------------------------------------------------------------------------
  // GET /:id

  /** The response to the vendor's reply for one review; a thrown error whose response
      had status 404 is a not-found, like a failed reply. */
  function GetOutcome(reply: VendorReply): (res: ApiResponse)
    ensures reply.Body? && reply.response.status == Success ==>
              res == ApiResponse(200, "Success", "Review retrieved successfully", VendorData(reply.response))
    ensures (reply.Body? && reply.response.status != Success) || (reply.Threw? && reply.httpStatus == Some(404)) ==>
              res == ApiResponse(404, "NotFoundError", "Review not found", NoData)
    ensures !reply.Body? && !(reply.Threw? && reply.httpStatus == Some(404)) ==>
              res == Internal("Failed to fetch review", if reply.Threw? then reply.message else MissingBodyError(reply))
  {
    match reply
    case Body(r) =>
      if r.status != Success then ApiResponse(404, "NotFoundError", "Review not found", NoData)
      else ApiResponse(200, "Success", "Review retrieved successfully", VendorData(r))
    case Threw(msg, st) =>
      if st == Some(404) then ApiResponse(404, "NotFoundError", "Review not found", NoData)
      else Internal("Failed to fetch review", msg)
    case _ => Internal("Failed to fetch review", MissingBodyError(reply))
  }

  /** GET /:id: an id that is empty or not a number gets 400 and no vendor call. */
  function GetReview(id: string, authorization: Option<string>, rt: Runtime,
                     vendor: VendorCall -> VendorReply): (h: Handled)
    ensures InvalidId(id, rt) ==> h == Handled(ApiResponse(400, "ValidationError", InvalidIdMessage, NoData), None)
    ensures !InvalidId(id, rt) ==>
              var call := GetCall(HostawayMock.ReviewsUrl + "/" + id, authorization);
              h.call == Some(call) && h.response == GetOutcome(vendor(call))
  {
    if InvalidId(id, rt) then Handled(ApiResponse(400, "ValidationError", InvalidIdMessage, NoData), None)
    else
      var call := GetCall(HostawayMock.ReviewsUrl + "/" + id, authorization);
      Handled(GetOutcome(vendor(call)), Some(call))
  }

  /** A thrown error never decides a message: each handler answers it with 500, its
      own fixed message, and the error text only under `data.error` (for GET /:id,
      unless the error carried a 404). */
  lemma ThrownErrorsAreInternal(msg: string, st: Option<int>)
    ensures ListOutcome(VendorReply.Threw(msg, st)) == ApiResponse(500, "InternalServerError", "Failed to fetch reviews", ErrorDetail(msg))
    ensures PatchOutcome(VendorReply.Threw(msg, st)) == ApiResponse(500, "InternalServerError", "Failed to update review status", ErrorDetail(msg))
    ensures st != Some(404) ==>
              GetOutcome(VendorReply.Threw(msg, st)) == ApiResponse(500, "InternalServerError", "Failed to fetch review", ErrorDetail(msg))
  {
  }

  /** The mocked vendor answers a lookup whose URL carries no usable id (such as 0) with
      a null body, which the handler turns into a 500. */
  lemma NullLookupIsInternal()
    ensures GetOutcome(NullBody) ==
              ApiResponse(500, "InternalServerError", "Failed to fetch review",
                          ErrorDetail("Cannot read properties of null (reading 'status')"))
  {
  }
}
