/** Value types shared by the review and restaurant services: the embedded
    documents of a restaurant record, the requests the services receive, and
    the errors they raise. */
module Domain {

  /** Document and user identifiers (UUID strings in the system). */
  type Id = string

  /** A clock reading, in seconds. */
  type Timestamp = int

  const SECONDS_PER_HOUR: int := 3600

  /** Reviews may be edited for this many hours after they were posted. */
  const EDIT_WINDOW_HOURS: int := 48

  datatype Option<+T> = None | Some(value: T)

  /** Why a review operation was rejected (ReviewNotAllowedException). */
  datatype NotAllowedReason =
    | AlreadyReviewed     // "User has already written a review for this restaurant."
    | ReviewDoesNotExist  // "Review does not exist"
    | NotAuthor           // "Cannot update/delete another user's review."
    | EditWindowClosed    // "Review can no longer be updated."

  datatype Error =
    | RestaurantNotFound(restaurantId: Id)
    | ReviewNotAllowed(reason: NotAllowedReason)
    | Internal  // "Error retrieving created review"

  datatype Result<+T> = Ok(value: T) | Err(error: Error)

  /** The authenticated caller; compared by `id` only. */
  datatype User = User(id: Id, username: string, givenName: string, familyName: string)

  datatype Photo = Photo(url: string, uploadDate: Timestamp)

  datatype Review = Review(
    id: Id,
    content: string,
    rating: int,
    photos: seq<Photo>,
    datePosted: Timestamp,
    lastEdited: Timestamp,
    writtenBy: User)

  datatype ReviewRequest = ReviewRequest(content: string, rating: int, photoIds: seq<string>)

  datatype Address = Address(
    streetNumber: string,
    streetName: string,
    unit: string,
    city: string,
    state: string,
    postalCode: string,
    country: string)

  /** What the geocoder answers for an address. */
  datatype GeoLocation = GeoLocation(latitude: real, longitude: real)

  /** The stored search point of a restaurant. */
  datatype GeoPoint = GeoPoint(lat: real, lon: real)

  /** The weekly opening hours, kept as an uninterpreted schedule. */
  datatype OperatingHours = OperatingHours(schedule: seq<string>)

  datatype RestaurantRequest = RestaurantRequest(
    name: string,
    cuisineType: string,
    contactInformation: string,
    address: Address,
    operatingHours: OperatingHours,
    photoIds: seq<string>)

  /** A restaurant record as the store holds it: the aggregate of the restaurant
      and its embedded, ordered reviews. */
  datatype RestaurantDoc = RestaurantDoc(
    id: Id,
    name: string,
    cuisineType: string,
    contactInformation: string,
    address: Address,
    geoLocation: GeoPoint,
    operatingHours: OperatingHours,
    averageRating: real,
    photos: seq<Photo>,
    reviews: seq<Review>)

  /** One photo per URL, in order, each stamped with the same upload date. */
  function PhotosFrom(urls: seq<string>, uploadDate: Timestamp): (photos: seq<Photo>)
    ensures |photos| == |urls|
    ensures forall i :: 0 <= i < |urls| ==> photos[i].url == urls[i] && photos[i].uploadDate == uploadDate
  {
    if urls == [] then [] else [Photo(urls[0], uploadDate)] + PhotosFrom(urls[1..], uploadDate)
  }

  function PhotoUrls(photos: seq<Photo>): (urls: seq<string>)
    ensures |urls| == |photos|
    ensures forall i :: 0 <= i < |photos| ==> urls[i] == photos[i].url
  {
    if photos == [] then [] else [photos[0].url] + PhotoUrls(photos[1..])
  }

  /** Building photos from URLs loses nothing: the URLs come back in order. */
  lemma {:induction false} PhotoUrlsRoundTrip(urls: seq<string>, uploadDate: Timestamp)
    ensures PhotoUrls(PhotosFrom(urls, uploadDate)) == urls
  {
    if urls != [] {
      PhotoUrlsRoundTrip(urls[1..], uploadDate);
    }
  }
}
