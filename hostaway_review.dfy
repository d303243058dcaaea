/**
 * The vendor's review record and the enumerations it uses, and the envelope the
 * vendor (here, its in-process mock) answers with.
 */
module HostawayReview {
  import opened Maybe
  import opened JsRuntime

  /** Who wrote the review about whom. */
  datatype ReviewType = HostToGuest | GuestToHost

  function TypeCode(t: ReviewType): string {
    match t
    case HostToGuest => "host-to-guest"
    case GuestToHost => "guest-to-host"
  }

  /** The review type a string names, if any. */
  function ParseType(s: string): (r: Option<ReviewType>)
    ensures r.Some? ==> TypeCode(r.value) == s
    ensures r.None? ==> forall t: ReviewType :: TypeCode(t) != s
  {
    if s == "host-to-guest" then Some(HostToGuest)
    else if s == "guest-to-host" then Some(GuestToHost)
    else None
  }

  /** Whether a review is shown on the public website. */
  datatype ReviewStatus = Published | Awaiting

  function StatusCode(s: ReviewStatus): string {
    match s
    case Published => "published"
    case Awaiting => "awaiting"
  }

  /** The rated aspects of a stay. */
  datatype Category = Cleanliness | Communication | RespectHouseRules

  function CategoryCode(c: Category): string {
    match c
    case Cleanliness => "cleanliness"
    case Communication => "communication"
    case RespectHouseRules => "respect_house_rules"
  }

  /** The category a string names, if any. */
  function ParseCategory(s: string): (r: Option<Category>)
    ensures r.Some? ==> CategoryCode(r.value) == s
    ensures r.None? ==> forall c: Category :: CategoryCode(c) != s
  {
    if s == "cleanliness" then Some(Cleanliness)
    else if s == "communication" then Some(Communication)
    else if s == "respect_house_rules" then Some(RespectHouseRules)
    else None
  }

  /** The booking channels a review can come from, each known by a numeric code. */
  datatype Channel =
    | AirbnbOfficial | Homeaway | Bookingcom | Expedia | Homeawayical | Vrboical | Direct
    | Bookingengine | CustomIcal | Tripadvisorical | Wordpress | Marriott | Partner | Gds | Google

  function ChannelCode(c: Channel): int {
    match c
    case AirbnbOfficial => 2018
    case Homeaway => 2002
    case Bookingcom => 2005
    case Expedia => 2007
    case Homeawayical => 2009
    case Vrboical => 2010
    case Direct => 2000
    case Bookingengine => 2013
    case CustomIcal => 2015
    case Tripadvisorical => 2016
    case Wordpress => 2017
    case Marriott => 2019
    case Partner => 2020
    case Gds => 2021
    case Google => 2022
  }

  /** The channel a numeric code stands for, if any. */
  function ParseChannel(n: int): (r: Option<Channel>)
    ensures r.Some? ==> ChannelCode(r.value) == n
    ensures r.None? ==> forall c: Channel :: ChannelCode(c) != n
  {
    match n
    case 2018 => Some(AirbnbOfficial)
    case 2002 => Some(Homeaway)
    case 2005 => Some(Bookingcom)
    case 2007 => Some(Expedia)
    case 2009 => Some(Homeawayical)
    case 2010 => Some(Vrboical)
    case 2000 => Some(Direct)
    case 2013 => Some(Bookingengine)
    case 2015 => Some(CustomIcal)
    case 2016 => Some(Tripadvisorical)
    case 2017 => Some(Wordpress)
    case 2019 => Some(Marriott)
    case 2020 => Some(Partner)
    case 2021 => Some(Gds)
    case 2022 => Some(Google)
    case _ => None
  }

  /** `n` is the code of some channel. */
  predicate IsChannelCode(n: int) {
    ParseChannel(n).Some?
  }

  /** The channel codes are exactly 2000, 2002, 2005, 2007, 2009, 2010, 2013 and 2015 to 2022,
      and no two channels share a code. */
  lemma ChannelCodesAre(n: int)
    ensures IsChannelCode(n) <==> n in {2000, 2002, 2005, 2007, 2009, 2010, 2013} || 2015 <= n <= 2022
    ensures forall c, d: Channel :: ChannelCode(c) == ChannelCode(d) ==> c == d
  {
  }

  /** One rated aspect of a review. */
  datatype CategoryRating = CategoryRating(category: Category, rating: int)

  /**
   * A review as the vendor returns it. `status` is a string because the status patch
   * stores whatever text it is given; `submittedAt` is the parsed time value, None when
   * the stored text is not a date.
   */
  datatype Review = Review(
    id: int,
    listingMapId: int,
    listingName: string,
    reviewType: ReviewType,
    status: string,
    channelId: int,
    rating: int,
    publicReview: Option<string>,
    reviewCategory: Option<seq<CategoryRating>>,
    submittedAt: Option<int>,
    guestName: string)

  /** Only published reviews are shown to the public. */
  predicate IsPublished(r: Review) {
    r.status == StatusCode(Published)
  }

  /** The category names a review is rated on (none when it has no category ratings). */
  function CategoryNames(r: Review): (names: seq<string>)
    ensures |names| == |r.reviewCategory.GetOr([])|
    ensures forall i :: 0 <= i < |names| ==> names[i] == CategoryCode(r.reviewCategory.GetOr([])[i].category)
  {
    var cats := r.reviewCategory.GetOr([]);
    seq(|cats|, i requires 0 <= i < |cats| => CategoryCode(cats[i].category))
  }

  /** The vendor's verdict on a request. */
  datatype ResponseStatus = Success | Failed

  /** What the vendor response's `result` holds. */
  datatype Payload = NoResult | One(review: Review) | Many(reviews: seq<Review>)

  /** The vendor response: `{status, count, offset, result}`. */
  datatype HostawayResponse = HostawayResponse(
    status: ResponseStatus,
    count: int,
    offset: ParsedInt,
    result: Payload)
}
