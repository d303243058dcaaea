/**
 * The in-process stand-in for the vendor's review API: a table of reviews, the query
 * engine that sorts a copy of it, filters and pages it, the single-review lookup, and
 * the status update, the one change made to the table in place.
 */
module HostawayMock {
  import opened Maybe
  import opened JsRuntime
  import opened SearchParams
  import opened HostawayReview
  import opened ReviewOrder
  import Func

  /** The vendor's reviews endpoint, which request URLs start with. */
  const ReviewsUrl := "https://api.hostaway.com/v1/reviews"

  // ---------------------------------------------------------------------------
  // getUrlId

  /** The text `parseInt` reads the id from: the piece after a leading '/', or all of it. */
  function IdText(after: string): string
    requires after != []
  {
    if after[0] == '/' then
      Func.SplitHasTwoPieces(after, '/');
      Split(after, '/')[1]
    else after
  }

  /**
   * `getUrlId(url, baseURL)`: the integer that follows `baseURL` (after an optional '/'),
   * or None when nothing follows it or the integer read is 0 or NaN.
   */
  function GetUrlId(url: string, base: string, rt: Runtime): (r: Option<int>)
    requires |base| > 0
    ensures r.Some? <==> Truthy(SecondPiece(url, base))
                         && rt.parseInt(IdText(SecondPiece(url, base).value)).Int?
                         && rt.parseInt(IdText(SecondPiece(url, base).value)).value != 0
    ensures r.Some? ==> r.value != 0 && rt.parseInt(IdText(SecondPiece(url, base).value)) == Int(r.value)
  {
    var after := SecondPiece(url, base);
    if !Truthy(after) then None
    else
      var urlId := rt.parseInt(IdText(after.value));
      if urlId.NotANumber? || urlId.value == 0 then None else Some(urlId.value)
  }

  /** The id of a review's own URL comes back out, given that `parseInt` reads a
      canonical numeral correctly. */
  lemma GetUrlIdOfReviewPath(n: nat, rt: Runtime)
    requires n > 0 && rt.parseInt(NatToString(n)) == Int(n)
    ensures GetUrlId(ReviewsUrl + "/" + NatToString(n), ReviewsUrl, rt) == Some(n)
  {
    assert ReviewsUrl[0] == 'h';
    GetUrlIdOfPath(ReviewsUrl, n, rt);
  }

  /** The same for any base URL that starts with neither a digit nor '/'. */
  lemma GetUrlIdOfPath(base: string, n: nat, rt: Runtime)
    requires |base| > 0 && base[0] != '/' && !IsDigit(base[0])
    requires n > 0 && rt.parseInt(NatToString(n)) == Int(n)
    ensures GetUrlId(base + "/" + NatToString(n), base, rt) == Some(n)
  {
    var d := NatToString(n);
    var t := "/" + d;
    assert base + "/" + d == base + t;
    PathAfterBase(base, d);
    IdTextOfPath(d);
  }

  /** The piece after the base URL is the whole "/digits" path. */
  lemma PathAfterBase(base: string, d: string)
    requires |base| > 0 && base[0] != '/' && !IsDigit(base[0])
    requires forall i :: 0 <= i < |d| ==> IsDigit(d[i])
    ensures SecondPiece(base + ("/" + d), base) == Some("/" + d)
  {
    var t := "/" + d;
    assert base[0] !in t by {
      forall i | 0 <= i < |t| ensures t[i] != base[0] {
        if i > 0 { assert t[i] == d[i - 1]; }
      }
    }
    NoOccurrenceWithoutChar(t, base, base[0]);
    SecondPieceAfterPrefix(base, t);
  }

  /** `parseInt` reads the digits after the leading '/'. */
  lemma IdTextOfPath(d: string)
    requires forall i :: 0 <= i < |d| ==> IsDigit(d[i])
    ensures IdText("/" + d) == d
  {
    assert '/' !in d by {
      forall i | 0 <= i < |d| ensures d[i] != '/' { assert IsDigit(d[i]); }
    }
    assert Join(["", d], '/') == "/" + d;
    SplitJoin(["", d], '/');
  }

  /** Nothing after the base URL, or no base URL at all, gives no id. */
  lemma GetUrlIdWithoutSuffix(url: string, rt: Runtime)
    ensures GetUrlId(ReviewsUrl, ReviewsUrl, rt).None?
    ensures IndexOf(url, ReviewsUrl, 0).None? ==> GetUrlId(url, ReviewsUrl, rt).None?
  {
    assert ReviewsUrl + "" == ReviewsUrl;
    SecondPieceAfterPrefix(ReviewsUrl, "");
  }

  // ---------------------------------------------------------------------------
  // The query as the mock reads it back from the URL's search parameters

  /** A channel filter: numeric when `Number(c)` is not NaN, compared as text otherwise. */
  datatype ChannelFilter = ChannelNumber(n: Number) | ChannelText(s: string)

  function ToChannelFilter(c: string, rt: Runtime): ChannelFilter {
    var n := rt.toNumber(c);
    if n.NaN? then ChannelText(c) else ChannelNumber(n)
  }

  /**
   * The parsed query. Absent (or empty) parameters are None, except `offset`, which is
   * 0; `from`/`to` are Some(None) for an Invalid Date; `order` is None when no sort key
   * is given.
   */
  datatype MockQuery = MockQuery(
    offset: ParsedInt,
    limit: Option<ParsedInt>,
    listingId: Option<ParsedInt>,
    reviewType: Option<string>,
    channels: Option<seq<ChannelFilter>>,
    from: Option<Option<int>>,
    to: Option<Option<int>>,
    minRating: Option<ParsedInt>,
    categories: Option<seq<string>>,
    order: Option<Order>)

  /** A list parameter: every repeated value when there is one, otherwise the single
      value split on ','. */
  function ListParam(ps: seq<Pair>, key: string): Option<seq<string>> {
    var all := GetAll(ps, key);
    if all != [] then Some(all)
    else
      var one := Get(ps, key);
      if Truthy(one) then Some(Split(one.value, ',')) else None
  }

  /** The split branch never runs: a list parameter is exactly `getAll`, or absent. */
  lemma ListParamIsGetAll(ps: seq<Pair>, key: string)
    ensures ListParam(ps, key) == if GetAll(ps, key) == [] then None else Some(GetAll(ps, key))
  {
  }

  /** The sort requested by `sortBy` and `sortOrder`: by rating when `sortBy` is "Rating"
      or lowercases to "rating", by submission time otherwise; ascending only when
      `sortOrder` lowercases to "asc". */
  function OrderOf(sortBy: Option<string>, sortOrder: Option<string>): (o: Option<Order>)
    ensures o.Some? <==> Truthy(sortBy)
    ensures o.Some? ==> (o.value.byRating <==> ToLower(sortBy.value) == "rating")
    ensures o.Some? ==> (o.value.ascending <==> sortOrder.Some? && ToLower(sortOrder.value) == "asc")
  {
    if !Truthy(sortBy) then None
    else
      assert sortBy.value == "Rating" ==> ToLower(sortBy.value) == "rating" by {
        if sortBy.value == "Rating" {
          assert ToLower(sortBy.value)[0] == 'r';
        }
      }
      Some(Order(
        byRating := sortBy.value == "Rating" || ToLower(sortBy.value) == "rating",
        ascending := Truthy(sortOrder) && ToLower(sortOrder.value) == "asc"))
  }

  /** `fetchMockedReviews`' reading of its search parameters. */
  function ParseQuery(ps: seq<Pair>, rt: Runtime): MockQuery {
    var offset := Get(ps, "offset");
    var limit := Get(ps, "limit");
    var listingId := Get(ps, "listingId");
    var from := Get(ps, "from");
    var to := Get(ps, "to");
    var minRating := Get(ps, "minRating");
    var channels := ListParam(ps, "channels");
    MockQuery(
      offset := if Truthy(offset) then rt.parseInt10(offset.value) else Int(0),
      limit := if Truthy(limit) then Some(rt.parseInt10(limit.value)) else None,
      listingId := if Truthy(listingId) then Some(rt.parseInt10(listingId.value)) else None,
      reviewType := Get(ps, "type"),
      channels := if channels.Some? then Some(seq(|channels.value|, i requires 0 <= i < |channels.value| =>
                                                  ToChannelFilter(channels.value[i], rt)))
                  else None,
      from := if Truthy(from) then Some(rt.toDate(from.value)) else None,
      to := if Truthy(to) then Some(rt.toDate(to.value)) else None,
      minRating := if Truthy(minRating) then Some(rt.parseInt10(minRating.value)) else None,
      categories := ListParam(ps, "categories"),
      order := OrderOf(Get(ps, "sortBy"), Get(ps, "sortOrder")))
  }

  /** A filter is set exactly when its parameter is present and non-empty, and a list
      parameter is read from every repeated value. */
  lemma ParseQueryFields(ps: seq<Pair>, rt: Runtime)
    ensures var q := ParseQuery(ps, rt);
            && (q.limit.Some? <==> Truthy(Get(ps, "limit")))
            && (q.listingId.Some? <==> Truthy(Get(ps, "listingId")))
            && (q.from.Some? <==> Truthy(Get(ps, "from")))
            && (q.to.Some? <==> Truthy(Get(ps, "to")))
            && (q.minRating.Some? <==> Truthy(Get(ps, "minRating")))
            && (q.order.Some? <==> Truthy(Get(ps, "sortBy")))
            && (q.channels.Some? <==> GetAll(ps, "channels") != [])
            && (q.channels.Some? ==> |q.channels.value| == |GetAll(ps, "channels")|)
            && (q.categories.Some? <==> GetAll(ps, "categories") != [])
  {
    ListParamIsGetAll(ps, "channels");
    ListParamIsGetAll(ps, "categories");
  }

  // ---------------------------------------------------------------------------
  // The filter

  /** `review.channelId === c` for a number, `String(review.channelId) === String(c)` otherwise. */
  predicate ChannelMatches(r: Review, c: ChannelFilter) {
    match c
    case ChannelNumber(n) => n.Finite? && n.value == r.channelId as real
    case ChannelText(s) => IntToString(r.channelId) == s
  }

  /** Whether the review is kept: every supplied filter must hold. A NaN listing id keeps
      nothing, a NaN minimum rating keeps everything, and a supplied date bound drops
      every review whose own date does not parse. */
  predicate Matches(q: MockQuery, isAdmin: bool, r: Review) {
    && (isAdmin || IsPublished(r))
    && (q.listingId.Some? ==> q.listingId.value == Int(r.listingMapId))
    && (Truthy(q.reviewType) ==> TypeCode(r.reviewType) == q.reviewType.value)
    && (q.channels.Some? && |q.channels.value| > 0 ==>
          exists i :: 0 <= i < |q.channels.value| && ChannelMatches(r, q.channels.value[i]))
    && (q.minRating.Some? && q.minRating.value.Int? ==> r.rating >= q.minRating.value.value)
    && (q.categories.Some? && |q.categories.value| > 0 ==>
          exists i :: 0 <= i < |q.categories.value| && q.categories.value[i] in CategoryNames(r))
    && (q.from.Some? ==> r.submittedAt.Some? && (q.from.value.Some? ==> q.from.value.value <= r.submittedAt.value))
    && (q.to.Some? ==> r.submittedAt.Some? && (q.to.value.Some? ==> r.submittedAt.value <= q.to.value.value))
  }

  // ---------------------------------------------------------------------------
  // The list query: sort, filter, page

  /** The table, sorted when a sort key is given. */
  function Working(table: seq<Review>, q: MockQuery): seq<Review> {
    if q.order.Some? then Sort(table, q.order.value) else table
  }

  /** The reviews the filter keeps, in working order. */
  function Filtered(table: seq<Review>, q: MockQuery, isAdmin: bool): seq<Review> {
    Filter(Working(table, q), r => Matches(q, isAdmin, r))
  }

  /** `filtered.slice(offset, offset + limit)`, or `filtered.slice(offset)` without a limit. */
  function Page(filtered: seq<Review>, offset: ParsedInt, limit: Option<ParsedInt>): (p: seq<Review>)
    ensures |p| <= |filtered|
    ensures forall x :: x in p ==> x in filtered
    ensures var from := SliceIndex(offset, |filtered|);
            from + |p| <= |filtered| && p == filtered[from..from + |p|]
    ensures limit.None? ==> p == filtered[SliceIndex(offset, |filtered|)..]
    ensures limit.Some? ==> var from := SliceIndex(offset, |filtered|);
                            var to := SliceIndex(AddParsed(offset, limit.value), |filtered|);
                            p == (if from < to then filtered[from..to] else [])
  {
    var from := SliceIndex(offset, |filtered|);
    var to := if limit.Some? then SliceIndex(AddParsed(offset, limit.value), |filtered|) else |filtered|;
    assert Slice(filtered, offset, if limit.Some? then Some(AddParsed(offset, limit.value)) else None)
           == if from < to then filtered[from..to] else [];
    if from < to then filtered[from..to] else []
  }

  /** The response of `fetchMockedReviews`: the page, the parsed offset, and the number of
      reviews that passed the filter before paging. */
  function FetchReviewsResult(table: seq<Review>, q: MockQuery, isAdmin: bool): HostawayResponse {
    var filtered := Filtered(table, q, isAdmin);
    HostawayResponse(Success, |filtered|, q.offset, Many(Page(filtered, q.offset, q.limit)))
  }

  /** Every returned review passes every supplied filter (for a public caller, it is
      published); the count is the number of matches, not the page size. */
  lemma FetchReviewsSound(table: seq<Review>, q: MockQuery, isAdmin: bool)
    ensures var resp := FetchReviewsResult(table, q, isAdmin);
            && resp.status == Success
            && resp.count == |Filtered(table, q, isAdmin)| >= |resp.result.reviews|
            && (forall r :: r in resp.result.reviews ==> r in table && Matches(q, isAdmin, r))
            && (!isAdmin ==> forall r :: r in resp.result.reviews ==> IsPublished(r))
  {
    var resp := FetchReviewsResult(table, q, isAdmin);
    forall r | r in resp.result.reviews ensures r in table && Matches(q, isAdmin, r) {
      if q.order.Some? {
        SortIsPermutation(table, q.order.value);
        assert r in multiset(Sort(table, q.order.value));
      }
    }
  }

  /** The filter loses nothing: a review is among the matches exactly when it is in the
      table and passes every filter. */
  lemma FilteredIsExactlyTheMatches(table: seq<Review>, q: MockQuery, isAdmin: bool, r: Review)
    ensures r in Filtered(table, q, isAdmin) <==> r in table && Matches(q, isAdmin, r)
  {
    if q.order.Some? {
      SortIsPermutation(table, q.order.value);
      assert r in table <==> r in multiset(Sort(table, q.order.value));
    }
  }

  /** With every sort key defined, the matches come out as the sorted list of the
      matching reviews: filtering keeps the sorted order among the survivors. */
  lemma FilteredIsSortedMatches(table: seq<Review>, q: MockQuery, isAdmin: bool)
    requires q.order.Some? && AllKeyed(table, q.order.value)
    ensures Filtered(table, q, isAdmin) == Sort(Filter(table, r => Matches(q, isAdmin, r)), q.order.value)
  {
    FilterSortCommute(table, q.order.value, r => Matches(q, isAdmin, r));
  }

  /** Without a sort key the table order is kept. */
  lemma NoSortKeepsTableOrder(table: seq<Review>, ps: seq<Pair>, rt: Runtime, isAdmin: bool)
    requires !Truthy(Get(ps, "sortBy"))
    ensures Filtered(table, ParseQuery(ps, rt), isAdmin) == Filter(table, r => Matches(ParseQuery(ps, rt), isAdmin, r))
  {
  }

  /** Paging with a non-negative offset and limit: the page is the matches from `offset`
      up to `offset + limit` (or the end); an offset at or past the end gives an empty
      page while the count stays the number of matches. */
  lemma PageWindow(filtered: seq<Review>, offset: nat, limit: Option<nat>)
    ensures var n := |filtered|;
            var from := if offset < n then offset else n;
            var to := if limit.None? || n <= offset + limit.value then n else offset + limit.value;
            Page(filtered, Int(offset), if limit.Some? then Some(Int(limit.value)) else None)
              == filtered[from..to]
    ensures offset >= |filtered| ==>
              Page(filtered, Int(offset), if limit.Some? then Some(Int(limit.value)) else None) == []
  {
  }

  /** A negative offset `-back` counts from the end of the matches. Without a limit the
      page is the last `back` matches (all of them when there are fewer). With a limit
      below `back`, the page is that many matches from that point. With a larger limit,
      `offset + limit` is a position counted from the start. */
  lemma PageFromEnd(filtered: seq<Review>, back: nat, limit: Option<nat>)
    requires back > 0
    ensures var n := |filtered|;
            var from := if back < n then n - back else 0;
            && (limit.None? ==> Page(filtered, Int(-(back as int)), None) == filtered[from..])
            && (limit.Some? && limit.value < back ==>
                  var to := if n + limit.value < back then 0 else n - back + limit.value;
                  Page(filtered, Int(-(back as int)), Some(Int(limit.value))) == filtered[from..to])
            && (limit.Some? && back <= limit.value ==>
                  var to := if limit.value - back < n then limit.value - back else n;
                  Page(filtered, Int(-(back as int)), Some(Int(limit.value))) == if from < to then filtered[from..to] else [])
  {
  }

  /** Limits that validation lets through but that are not a count. A NaN limit makes
      `offset + limit` NaN, which slices to nothing. A negative limit `-m` puts the end
      `m` before the offset: nothing when that is still at or after the start, and
      otherwise an end counted back from the last match, so the page stops
      `m - offset` matches before the end. */
  lemma PageOddLimit(filtered: seq<Review>, offset: nat, m: nat)
    requires m > 0
    ensures Page(filtered, Int(offset), Some(NotANumber)) == []
    ensures m <= offset ==> Page(filtered, Int(offset), Some(Int(-(m as int)))) == []
    ensures offset < m ==>
              var to := if |filtered| < m - offset then 0 else |filtered| - (m - offset);
              Page(filtered, Int(offset), Some(Int(-(m as int)))) == if offset < to then filtered[offset..to] else []
  {
  }

  /** The response echoes the parsed offset, 0 when none is given. */
  lemma OffsetEcho(table: seq<Review>, ps: seq<Pair>, rt: Runtime, isAdmin: bool)
    ensures var resp := FetchReviewsResult(table, ParseQuery(ps, rt), isAdmin);
            && (!Truthy(Get(ps, "offset")) ==> resp.offset == Int(0))
            && (Truthy(Get(ps, "offset")) ==> resp.offset == rt.parseInt10(Get(ps, "offset").value))
  {
  }

  // ---------------------------------------------------------------------------
  // Lookups

  /** `table.find(r => r.id === id)`. */
  function Find(table: seq<Review>, id: int): (r: Option<Review>)
    ensures r.None? <==> forall k :: 0 <= k < |table| ==> table[k].id != id
    ensures r.Some? ==> exists k :: 0 <= k < |table| && table[k] == r.value && r.value.id == id
                                    && forall j :: 0 <= j < k ==> table[j].id != id
  {
    var k := FindIndex(table, id);
    if k < 0 then None else Some(table[k])
  }

  /** `table.findIndex(r => r.id === id)`: the first position holding that id, or -1. */
  function FindIndex(table: seq<Review>, id: int): (k: int)
    ensures -1 <= k < |table|
    ensures k >= 0 ==> table[k].id == id && forall j :: 0 <= j < k ==> table[j].id != id
    ensures k == -1 <==> forall j :: 0 <= j < |table| ==> table[j].id != id
  {
    if table == [] then -1
    else if table[0].id == id then 0
    else
      var k := FindIndex(table[1..], id);
      assert forall j :: 1 <= j < |table| ==> table[j] == table[1..][j - 1];
      if k < 0 then -1 else k + 1
  }

  /** The row `patchMockedReviewStatus` writes to, as written: the index test `!reviewIndex`
      also rejects index 0. */
  function PatchTarget(table: seq<Review>, id: int): (k: Option<nat>)
    ensures k.Some? ==> 0 < k.value < |table| && table[k.value].id == id
  {
    var k := FindIndex(table, id);
    if k <= 0 then None else Some(k)
  }

  /** The first review of the table can never be patched, although its id is found. */
  lemma FirstReviewIsNeverPatched(table: seq<Review>)
    requires table != []
    ensures FindIndex(table, table[0].id) == 0
    ensures PatchTarget(table, table[0].id) == None
  {
  }

  /** The row the update evidently means: the first one holding the id, wherever it is. */
  function PatchTargetIntended(table: seq<Review>, id: int): (k: Option<nat>)
    ensures k.Some? ==> k.value < |table| && table[k.value].id == id
  {
    var k := FindIndex(table, id);
    if k < 0 then None else Some(k)
  }

  /** The intended target exists exactly when some review has the id, and it agrees with
      the written one everywhere except at the first row. */
  lemma PatchTargetIntendedFindsEveryId(table: seq<Review>, id: int)
    ensures PatchTargetIntended(table, id).Some? <==> exists j :: 0 <= j < |table| && table[j].id == id
    ensures PatchTargetIntended(table, id) != Some(0) ==> PatchTarget(table, id) == PatchTargetIntended(table, id)
  {
  }

  /** The response of a status update that did not happen. */
  const PatchFailed := HostawayResponse(Failed, 0, Int(0), NoResult)

  /** The table of reviews the mocked vendor serves. */
  class ReviewStore {
    var reviews: seq<Review>

    /** The store over its initial fixture. */
    constructor (initial: seq<Review>)
      ensures reviews == initial
    {
      reviews := initial;
    }

    /**
     * `fetchMockedReviews`: copy the table into a fresh array, sort the copy in place
     * when a sort key is given, then filter and page it. The table itself is not changed.
     */
    method FetchReviews(ps: seq<Pair>, isAdmin: bool, rt: Runtime) returns (resp: HostawayResponse)
      ensures resp == FetchReviewsResult(reviews, ParseQuery(ps, rt), isAdmin)
    {
      var q := ParseQuery(ps, rt);
      var table := reviews;
      var working := new Review[|table|](i requires 0 <= i < |table| => table[i]);
      assert working[..] == table;
      if q.order.Some? {
        SortInPlace(working, q.order.value);
      }
      var filtered := Filter(working[..], r => Matches(q, isAdmin, r));
      resp := HostawayResponse(Success, |filtered|, q.offset, Many(Page(filtered, q.offset, q.limit)));
    }

    /**
     * `fetchMockedReview`: None (null) when the URL carries no id; otherwise a success
     * holding the first review with that id, unless a public caller asks for one that
     * is not published, which gets no result and a count of 0.
     */
    function FetchReview(url: string, isAdmin: bool, rt: Runtime): (resp: Option<HostawayResponse>)
      reads this
      ensures resp.None? <==> GetUrlId(url, ReviewsUrl, rt).None?
      ensures resp.Some? ==> resp.value.status == Success && resp.value.offset == Int(0)
      ensures resp.Some? ==>
                var found := Find(reviews, GetUrlId(url, ReviewsUrl, rt).value);
                (resp.value.result.One? <==> found.Some? && (isAdmin || IsPublished(found.value)))
                && (resp.value.result.One? ==> resp.value.result.review == found.value && resp.value.count == 1)
                && (!resp.value.result.One? ==> resp.value.result == NoResult && resp.value.count == 0)
    {
      var id := GetUrlId(url, ReviewsUrl, rt);
      if id.None? then None
      else
        var found := Find(reviews, id.value);
        var result := if found.Some? && !isAdmin && !IsPublished(found.value) then None else found;
        Some(HostawayResponse(Success, if result.Some? then 1 else 0, Int(0),
                              if result.Some? then One(result.value) else NoResult))
    }

    /**
     * `patchMockedReviewStatus`: nothing for a non-admin caller; a failure, with the
     * table untouched, when the id or the status is missing or the id is not found (or
     * found at the first row); otherwise only that review's status becomes the given
     * text, and the review is returned with a count of 1.
     */
    method PatchStatus(url: string, ps: seq<Pair>, isAdmin: bool, rt: Runtime) returns (resp: Option<HostawayResponse>)
      modifies this
      ensures !isAdmin ==> resp.None? && reviews == old(reviews)
      ensures isAdmin ==> resp.Some?
      ensures var id := GetUrlId(url, ReviewsUrl, rt);
              var status := Get(ps, "status");
              isAdmin && (id.None? || !Truthy(status) || PatchTarget(old(reviews), id.value).None?) ==>
                resp == Some(PatchFailed) && reviews == old(reviews)
      ensures var id := GetUrlId(url, ReviewsUrl, rt);
              var status := Get(ps, "status");
              isAdmin && id.Some? && Truthy(status) && PatchTarget(old(reviews), id.value).Some? ==>
                var k := PatchTarget(old(reviews), id.value).value;
                && reviews == old(reviews)[k := old(reviews)[k].(status := status.value)]
                && resp == Some(HostawayResponse(Success, 1, Int(0), One(reviews[k])))
                && reviews[k].id == id.value && reviews[k].status == status.value
                && ChangesOnlyStatusAt(old(reviews), reviews, k)
    {
      if !isAdmin {
        return None;
      }
      var status := Get(ps, "status");
      var id := GetUrlId(url, ReviewsUrl, rt);
      if id.None? || !Truthy(status) {
        return Some(PatchFailed);
      }
      var target := PatchTarget(reviews, id.value);
      if target.None? {
        return Some(PatchFailed);
      }
      var k := target.value;
      PatchChangesOnlyOneStatus(reviews, k, status.value);
      reviews := reviews[k := reviews[k].(status := status.value)];
      resp := Some(HostawayResponse(Success, 1, Int(0), One(reviews[k])));
    }
  }

  /** `after` is `before` with at most the status of row `k` changed: the other rows keep
      every field, and row `k` keeps every field but its status. */
  predicate ChangesOnlyStatusAt(before: seq<Review>, after: seq<Review>, k: nat) {
    && k < |before| == |after|
    && (forall j :: 0 <= j < |before| && j != k ==> after[j] == before[j])
    && after[k].(status := before[k].status) == before[k]
  }

  /** Writing a status into row `k` changes that status and nothing else. */
  lemma PatchChangesOnlyOneStatus(table: seq<Review>, k: nat, status: string)
    requires k < |table|
    ensures var after := table[k := table[k].(status := status)];
            ChangesOnlyStatusAt(table, after, k) && after[k].status == status
  {
  }
}
