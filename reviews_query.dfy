/**
 * The query a client may send to list reviews: how the raw query-string values become
 * a `ReviewsQueryDto` (type conversions, the two list transforms and the defaults), the
 * rule each field must satisfy, and the validator's result in field order.
 */
module ReviewsQuery {
  import opened Maybe
  import opened JsRuntime
  import opened HostawayReview
  import opened Func

  /** The keys the vendor can sort on. */
  datatype SortBy = Rating | SubmittedAt

  function SortByCode(s: SortBy): string {
    match s
    case Rating => "Rating"
    case SubmittedAt => "submittedAt"
  }

  function ParseSortBy(s: string): (r: Option<SortBy>)
    ensures r.Some? ==> SortByCode(r.value) == s
    ensures r.None? ==> forall b: SortBy :: SortByCode(b) != s
  {
    if s == "Rating" then Some(Rating) else if s == "submittedAt" then Some(SubmittedAt) else None
  }

  /** The sort directions. */
  datatype SortOrder = Asc | Desc

  function SortOrderCode(s: SortOrder): string {
    match s
    case Asc => "asc"
    case Desc => "desc"
  }

  function ParseSortOrder(s: string): (r: Option<SortOrder>)
    ensures r.Some? ==> SortOrderCode(r.value) == s
    ensures r.None? ==> forall d: SortOrder :: SortOrderCode(d) != s
  {
    if s == "asc" then Some(Asc) else if s == "desc" then Some(Desc) else None
  }

  /** A query-string value as the request parser delivers it: one string, or all the
      values of a repeated name. */
  datatype QueryValue = Single(s: string) | Repeated(values: seq<string>)

  function AsJsValue(v: QueryValue): JsValue {
    match v
    case Single(s) => Text(s)
    case Repeated(vs) => Texts(vs)
  }

  /**
   * `@Type(() => Number)`: `Number(s)` of a single value. A repeated name converts to an
   * array of numbers, which no number rule accepts; it is shown here as NaN, which the
   * same rules reject.
   */
  function ToNumberField(v: QueryValue, rt: Runtime): Number {
    match v
    case Single(s) => rt.toNumber(s)
    case Repeated(_) => NaN
  }

  /** `@Type(() => Date)`: the time value of `new Date(s)`, None for an Invalid Date (and
      for the array of dates a repeated name converts to, which `IsDate` rejects alike). */
  function ToDateField(v: QueryValue, rt: Runtime): Option<int> {
    match v
    case Single(s) => rt.toDate(s)
    case Repeated(_) => None
  }

  /**
   * The DTO after conversion. An optional field is None when it is undefined; `from`
   * and `to` are Some(None) for an Invalid Date. `sortBy`, `sortOrder` and `offset`
   * start from their defaults and are overwritten by a supplied value.
   */
  datatype ReviewsQueryDto = ReviewsQueryDto(
    listingId: Option<Number>,
    reviewType: Option<QueryValue>,
    channels: Option<seq<ParsedInt>>,
    from: Option<Option<int>>,
    to: Option<Option<int>>,
    minRating: Option<Number>,
    categories: Option<seq<string>>,
    sortBy: QueryValue,
    sortOrder: QueryValue,
    limit: Option<Number>,
    offset: Number)

  const DefaultSortBy := Single(SortByCode(SubmittedAt))
  const DefaultSortOrder := Single(SortOrderCode(Desc))
  const DefaultOffset := Finite(0.0)

  /** The channel list the integer transform produces, None when it leaves the field undefined. */
  function ChannelList(v: QueryValue, rt: Runtime): (r: Option<seq<ParsedInt>>)
    ensures r.None? <==> ListOf(AsJsValue(v)).None?
    ensures r.Some? ==> IntListOf(AsJsValue(v), rt) == Some(Ints(r.value))
  {
    match IntListOf(AsJsValue(v), rt)
    case None => None
    case Some(list) => Some(list.nums)
  }

  /** The category list the string transform produces, None when it leaves the field undefined. */
  function CategoryList(v: QueryValue): (r: Option<seq<string>>)
    ensures r.None? <==> ListOf(AsJsValue(v)).None?
    ensures r.Some? ==> ListOf(AsJsValue(v)) == Some(Texts(r.value))
  {
    match ListOf(AsJsValue(v))
    case None => None
    case Some(list) => Some(list.items)
  }

  /** `plainToInstance(ReviewsQueryDto, req.query)`, field by field. */
  function Instantiate(query: map<string, QueryValue>, rt: Runtime): ReviewsQueryDto
  {
    ReviewsQueryDto(
      listingId := if "listingId" in query then Some(ToNumberField(query["listingId"], rt)) else None,
      reviewType := if "type" in query then Some(query["type"]) else None,
      channels := if "channels" in query then ChannelList(query["channels"], rt) else None,
      from := if "from" in query then Some(ToDateField(query["from"], rt)) else None,
      to := if "to" in query then Some(ToDateField(query["to"], rt)) else None,
      minRating := if "minRating" in query then Some(ToNumberField(query["minRating"], rt)) else None,
      categories := if "categories" in query then CategoryList(query["categories"]) else None,
      sortBy := if "sortBy" in query then query["sortBy"] else DefaultSortBy,
      sortOrder := if "sortOrder" in query then query["sortOrder"] else DefaultSortOrder,
      limit := if "limit" in query then Some(ToNumberField(query["limit"], rt)) else None,
      offset := if "offset" in query then ToNumberField(query["offset"], rt) else DefaultOffset)
  }

  /** What the conversion keeps: a supplied field is converted, an absent optional one
      stays undefined, and an absent `sortBy`, `sortOrder` or `offset` takes its
      initialiser. A list field also stays undefined when its transform derives no list. */
  lemma InstantiateFields(query: map<string, QueryValue>, rt: Runtime)
    ensures var d := Instantiate(query, rt);
            && (d.listingId.Some? <==> "listingId" in query)
            && (d.reviewType.Some? <==> "type" in query)
            && (d.from.Some? <==> "from" in query)
            && (d.to.Some? <==> "to" in query)
            && (d.minRating.Some? <==> "minRating" in query)
            && (d.limit.Some? <==> "limit" in query)
            && (d.channels.Some? ==> "channels" in query)
            && (d.categories.Some? ==> "categories" in query)
            && ("sortBy" !in query ==> d.sortBy == DefaultSortBy)
            && ("sortOrder" !in query ==> d.sortOrder == DefaultSortOrder)
            && ("offset" !in query ==> d.offset == DefaultOffset)
            && ("type" in query ==> d.reviewType == Some(query["type"]))
            && ("sortBy" in query ==> d.sortBy == query["sortBy"])
            && ("sortOrder" in query ==> d.sortOrder == query["sortOrder"])
  {
  }

  // ---------------------------------------------------------------------------
  // The rules, one per field; an absent (undefined) optional field passes.

  /** `IsNumber({allowNaN: false, allowInfinity: false, maxDecimalPlaces: 0})`. */
  predicate IsWholeNumber(n: Number) {
    IsInteger(n)
  }

  /** `IsEnum` over a string enumeration: a single string among its values. */
  predicate IsTypeValue(v: QueryValue) {
    v.Single? && ParseType(v.s).Some?
  }

  predicate IsSortByValue(v: QueryValue) {
    v.Single? && ParseSortBy(v.s).Some?
  }

  predicate IsSortOrderValue(v: QueryValue) {
    v.Single? && ParseSortOrder(v.s).Some?
  }

  /** `IsEnum(HostawayReviewChannel, {each: true})`: every element a channel code (NaN never is). */
  predicate AllChannels(cs: seq<ParsedInt>) {
    forall i :: 0 <= i < |cs| ==> cs[i].Int? && IsChannelCode(cs[i].value)
  }

  /** `IsEnum(HostawayReviewCategory, {each: true})`. */
  predicate AllCategories(cs: seq<string>) {
    forall i :: 0 <= i < |cs| ==> ParseCategory(cs[i]).Some?
  }

  /** `Min(0)`: a number not below 0 (NaN fails every comparison). */
  predicate AtLeastZero(n: Number) {
    match n
    case NaN => false
    case Infinite(neg) => !neg
    case Finite(v) => v >= 0.0
  }

  /** `Max(0)`: a number not above 0. */
  predicate AtMostZero(n: Number) {
    match n
    case NaN => false
    case Infinite(neg) => neg
    case Finite(v) => v <= 0.0
  }

  predicate Valid(d: ReviewsQueryDto) {
    && (d.listingId.None? || IsWholeNumber(d.listingId.value))
    && (d.reviewType.None? || IsTypeValue(d.reviewType.value))
    && (d.channels.None? || AllChannels(d.channels.value))
    && (d.from.None? || d.from.value.Some?)
    && (d.to.None? || d.to.value.Some?)
    && (d.minRating.None? || (AtLeastZero(d.minRating.value) && AtMostZero(d.minRating.value)))
    && (d.categories.None? || AllCategories(d.categories.value))
    && IsSortByValue(d.sortBy)
    && IsSortOrderValue(d.sortOrder)
    && (d.limit.None? || IsWholeNumber(d.limit.value))
    && IsWholeNumber(d.offset)
  }

  const ListingMessage := "Please provide a valid listing."
  const TypeMessage := "Please provide a valid review type."
  const ChannelsMessage := "Please provide a valid review channel(s)."
  const FromMessage := "Please provide a valid start date."
  const ToMessage := "Please provide a valid end date."
  const RatingMessage := "Please provide rating within range 1 - 10"
  const CategoriesMessage := "Please provide valid review categorie(s)."
  const SortByMessage := "Please provide a valid value to sort review by."
  const SortOrderMessage := "Please provide a valid value for review sorting direction."
  const LimitMessage := "Please provide a valid value to limit reviews."
  const OffsetMessage := "Please provide a valid value to skip some reviews."

  /** One property's verdict: whether it failed, and the validator's entry if it did. */
  datatype Check = Check(failed: bool, error: ValidationError)

  /** An entry for a property that failed a single rule. */
  function RuleError(property: string, rule: string, message: string): ValidationError {
    ValidationError(property, Some([Constraint(rule, message)]))
  }

  /** The `minRating` verdict: `max` and `min` are checked separately, and both carry the
      same message. */
  function RatingCheck(n: Option<Number>): (c: Check)
    ensures c.failed <==> n.Some? && !(AtLeastZero(n.value) && AtMostZero(n.value))
    ensures c.error.property == "minRating"
    ensures c.failed ==> c.error.constraints.Some? && c.error.constraints.value != []
                         && c.error.constraints.value[0].message == RatingMessage
  {
    if n.None? then Check(false, RuleError("minRating", "min", RatingMessage))
    else
      var cs := (if AtMostZero(n.value) then [] else [Constraint("max", RatingMessage)])
              + (if AtLeastZero(n.value) then [] else [Constraint("min", RatingMessage)]);
      Check(cs != [], ValidationError("minRating", Some(cs)))
  }

  /** The DTO's properties in the order they are declared. */
  const FieldOrder: seq<string> :=
    ["listingId", "type", "channels", "from", "to", "minRating", "categories",
     "sortBy", "sortOrder", "limit", "offset"]

  /** The verdicts, one per property, in the order the properties are declared. */
  function Checks(d: ReviewsQueryDto): (cs: seq<Check>)
    ensures |cs| == |FieldOrder|
    ensures forall i :: 0 <= i < |cs| ==> cs[i].error.property == FieldOrder[i]
  {
    [ Check(d.listingId.Some? && !IsWholeNumber(d.listingId.value), RuleError("listingId", "isNumber", ListingMessage)),
      Check(d.reviewType.Some? && !IsTypeValue(d.reviewType.value), RuleError("type", "isEnum", TypeMessage)),
      Check(d.channels.Some? && !AllChannels(d.channels.value), RuleError("channels", "isEnum", ChannelsMessage)),
      Check(d.from.Some? && d.from.value.None?, RuleError("from", "isDate", FromMessage)),
      Check(d.to.Some? && d.to.value.None?, RuleError("to", "isDate", ToMessage)),
      RatingCheck(d.minRating),
      Check(d.categories.Some? && !AllCategories(d.categories.value), RuleError("categories", "isEnum", CategoriesMessage)),
      Check(!IsSortByValue(d.sortBy), RuleError("sortBy", "isEnum", SortByMessage)),
      Check(!IsSortOrderValue(d.sortOrder), RuleError("sortOrder", "isEnum", SortOrderMessage)),
      Check(d.limit.Some? && !IsWholeNumber(d.limit.value), RuleError("limit", "isNumber", LimitMessage)),
      Check(!IsWholeNumber(d.offset), RuleError("offset", "isNumber", OffsetMessage)) ]
  }

  /** The entries of the failed verdicts, in order. */
  function Failures(cs: seq<Check>): (errs: seq<ValidationError>)
    ensures errs == [] <==> forall i :: 0 <= i < |cs| ==> !cs[i].failed
  {
    if cs == [] then []
    else
      var rest := Failures(cs[1..]);
      assert forall i :: 1 <= i < |cs| ==> cs[i] == cs[1..][i - 1];
      if cs[0].failed then [cs[0].error] + rest else rest
  }

  /** Every failed verdict is reported, in order: the errors of two runs of verdicts
      are those of the first followed by those of the second. */
  lemma {:induction false} FailuresAppend(a: seq<Check>, b: seq<Check>)
    ensures Failures(a + b) == Failures(a) + Failures(b)
  {
    if a == [] {
      assert a + b == b;
    } else {
      var head := if a[0].failed then [a[0].error] else [];
      FailuresAppend(a[1..], b);
      assert (a + b)[0] == a[0] && (a + b)[1..] == a[1..] + b;
      assert Failures(a + b) == head + Failures(a[1..] + b);
      assert Failures(a) == head + Failures(a[1..]);
      assert head + (Failures(a[1..]) + Failures(b)) == (head + Failures(a[1..])) + Failures(b);
    }
  }

  /** Each reported error is a failed verdict's, and the first is that of the first
      failed verdict. */
  lemma {:induction false} FailuresComeFromFailedChecks(cs: seq<Check>)
    ensures forall e :: e in Failures(cs) ==> exists i :: 0 <= i < |cs| && cs[i].failed && cs[i].error == e
    ensures Failures(cs) != [] ==>
              exists i :: 0 <= i < |cs| && cs[i].failed && Failures(cs)[0] == cs[i].error
                          && forall k :: 0 <= k < i ==> !cs[k].failed
  {
    if cs != [] {
      var tail := cs[1..];
      var rest := Failures(tail);
      FailuresComeFromFailedChecks(tail);
      forall e | e in Failures(cs)
        ensures exists i :: 0 <= i < |cs| && cs[i].failed && cs[i].error == e
      {
        if !(cs[0].failed && e == cs[0].error) {
          assert e in rest;
          var j :| 0 <= j < |tail| && tail[j].failed && tail[j].error == e;
          assert cs[j + 1] == tail[j];
        }
      }
      if rest != [] && !cs[0].failed {
        var j :| 0 <= j < |tail| && tail[j].failed && rest[0] == tail[j].error
                 && forall k :: 0 <= k < j ==> !tail[k].failed;
        assert cs[j + 1] == tail[j];
        assert forall k :: 1 <= k < j + 1 ==> cs[k] == tail[k - 1];
      }
    }
  }

  /** One verdict gives its error exactly when it failed. */
  lemma FailuresOfOne(c: Check)
    ensures Failures([c]) == (if c.failed then [c.error] else [])
  {
    assert [c][1..] == [];
  }

  /**
   * The validator's result: one entry per failing property, in the order the
   * properties are declared, each carrying the message of the rule it failed.
   */
  function FieldErrors(d: ReviewsQueryDto): (errs: seq<ValidationError>)
    ensures errs == [] <==> Valid(d)
    ensures forall e :: e in errs ==> e.constraints.Some? && e.constraints.value != []
  {
    ValidIffNoCheckFails(d);
    FailedChecksCarryConstraints(d);
    FailuresComeFromFailedChecks(Checks(d));
    Failures(Checks(d))
  }

  /** Every failed verdict lists at least one violated constraint. */
  lemma FailedChecksCarryConstraints(d: ReviewsQueryDto)
    ensures forall i :: 0 <= i < |Checks(d)| && Checks(d)[i].failed ==>
              Checks(d)[i].error.constraints.Some? && Checks(d)[i].error.constraints.value != []
  {
    var cs := Checks(d);
    forall i | 0 <= i < |cs| && cs[i].failed
      ensures cs[i].error.constraints.Some? && cs[i].error.constraints.value != []
    {
      if i == 5 {
        assert cs[5] == RatingCheck(d.minRating);
      }
    }
  }

  /** The query is valid exactly when none of its properties' verdicts failed. */
  lemma ValidIffNoCheckFails(d: ReviewsQueryDto)
    ensures Valid(d) <==> forall i :: 0 <= i < |Checks(d)| ==> !Checks(d)[i].failed
  {
    var cs := Checks(d);
    if !Valid(d) {
      assert cs[0].failed || cs[1].failed || cs[2].failed || cs[3].failed || cs[4].failed || cs[5].failed
          || cs[6].failed || cs[7].failed || cs[8].failed || cs[9].failed || cs[10].failed;
    }
  }

  /** The query names the DTO declares, which are also the property names of its errors. */
  const FieldNames: set<string> :=
    {"listingId", "type", "channels", "from", "to", "minRating", "categories",
     "sortBy", "sortOrder", "limit", "offset"}

  /**
   * The outcome of `validateDto` on a converted query: it never throws, it passes
   * exactly when every rule holds, and the first failing property in declaration order
   * supplies the message.
   */
  lemma ValidationOutcome(d: ReviewsQueryDto)
    ensures !ValidateDto(FieldErrors(d)).Threw?
    ensures ValidateDto(FieldErrors(d)).Passed? <==> Valid(d)
    ensures d.listingId.Some? && !IsWholeNumber(d.listingId.value) ==>
              ValidateDto(FieldErrors(d)) == ValidateOutcome.Failed(ListingMessage, FieldErrors(d))
  {
    FailuresComeFromFailedChecks(Checks(d));
  }

  /** A field the query does not supply never fails: every error names a supplied field. */
  lemma OnlySuppliedFieldsFail(query: map<string, QueryValue>, rt: Runtime)
    ensures forall e :: e in FieldErrors(Instantiate(query, rt)) ==> e.property in query && e.property in FieldNames
  {
    var cs := Checks(Instantiate(query, rt));
    FailuresComeFromFailedChecks(cs);
    forall i | 0 <= i < |cs| && cs[i].failed
      ensures cs[i].error.property in query && cs[i].error.property in FieldNames
    {
      if i < 6 {
        FailedEarlyCheckIsSupplied(query, rt, i);
      } else {
        FailedLateCheckIsSupplied(query, rt, i);
      }
    }
  }

  /** The verdicts for `listingId` through `minRating` fail only for supplied fields. */
  lemma FailedEarlyCheckIsSupplied(query: map<string, QueryValue>, rt: Runtime, i: nat)
    requires i < 6 && Checks(Instantiate(query, rt))[i].failed
    ensures Checks(Instantiate(query, rt))[i].error.property in query
    ensures Checks(Instantiate(query, rt))[i].error.property in FieldNames
  {
    var c := Checks(Instantiate(query, rt))[i];
    if i == 5 {
      assert "minRating" in query;
    } else {
      assert c.error.property == ["listingId", "type", "channels", "from", "to"][i];
    }
  }

  /** The verdicts for `categories` through `offset` fail only for supplied fields: the
      defaults that stand in for an absent `sortBy`, `sortOrder` and `offset` pass. */
  lemma FailedLateCheckIsSupplied(query: map<string, QueryValue>, rt: Runtime, i: nat)
    requires 6 <= i < 11 && Checks(Instantiate(query, rt))[i].failed
    ensures Checks(Instantiate(query, rt))[i].error.property in query
    ensures Checks(Instantiate(query, rt))[i].error.property in FieldNames
  {
    var c := Checks(Instantiate(query, rt))[i];
    assert IsWholeNumber(DefaultOffset) && IsSortByValue(DefaultSortBy) && IsSortOrderValue(DefaultSortOrder);
    assert c.error.property == ["categories", "sortBy", "sortOrder", "limit", "offset"][i - 6];
  }

  /** An empty query converts to the defaults and passes validation. */
  lemma EmptyQueryDefaults(rt: Runtime)
    ensures Instantiate(map[], rt) ==
              ReviewsQueryDto(None, None, None, None, None, None, None,
                              Single("submittedAt"), Single("desc"), None, Finite(0.0))
    ensures Valid(Instantiate(map[], rt))
  {
    assert IsInteger(Finite(0.0));
  }

  /** `minRating` passes only when it is 0. */
  lemma MinRatingAcceptsOnlyZero(n: Number)
    ensures AtLeastZero(n) && AtMostZero(n) <==> n == Finite(0.0)
  {
  }

  /** The rule the rating message describes: a number from 1 to 10. */
  predicate RatingInRange(n: Number) {
    n.Finite? && 1.0 <= n.value <= 10.0
  }

  /** The 1-to-10 rule accepts the doubled star ratings (2, 4, ..., 10) a client sends,
      which the declared `Min(0)`/`Max(0)` pair rejects. */
  lemma RatingInRangeAcceptsDoubledStars(stars: int)
    requires 1 <= stars <= 5
    ensures RatingInRange(Finite((2 * stars) as real))
    ensures !(AtLeastZero(Finite((2 * stars) as real)) && AtMostZero(Finite((2 * stars) as real)))
  {
  }

  /** `n` is the code of some channel. */
  predicate NamesChannel(n: ParsedInt) {
    exists c: Channel :: n == Int(ChannelCode(c))
  }

  /** A parsed value passes the channel rule exactly when it is some channel's code. */
  lemma ChannelCodeOf(n: ParsedInt)
    ensures (n.Int? && IsChannelCode(n.value)) <==> NamesChannel(n)
  {
    if n.Int? && IsChannelCode(n.value) {
      var c := ParseChannel(n.value).value;
      assert n == Int(ChannelCode(c));
    }
  }

  /** A channel list is valid exactly when every element is a channel's code; a value
      that `parseInt` could not read (NaN) makes it invalid. */
  lemma ChannelsRule(cs: seq<ParsedInt>)
    ensures AllChannels(cs) <==> forall i :: 0 <= i < |cs| ==> NamesChannel(cs[i])
  {
    forall i | 0 <= i < |cs| {
      ChannelCodeOf(cs[i]);
    }
  }
}
