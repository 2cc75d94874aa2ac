# Restaurant reviews: the aggregate and its business rules, in Dafny

This project models the core of a restaurant-review service. A restaurant
record and its embedded, ordered list of reviews form one unit of state. The
review service loads a record, applies one rule-checked change, recomputes the
record's average rating and saves the whole record back. The rules are:

- one review per author and restaurant;
- only the author may edit or delete a review;
- edits are accepted up to 48 hours after the review was posted;
- the stored average is the exact mean of the ratings, or 0 with no reviews.

The restaurant service creates and updates restaurant records and chooses one
of four repository queries for a search.

Layout (one module per file):

- `domain.dfy` (`Domain`): the value types (User, Photo, Review, requests,
  the restaurant record `RestaurantDoc`), errors, and photo-list construction.
- `rating.dfy` (`Rating`): the rating total and the mean, with their properties.
- `review_lists.dfy` (`ReviewLists`): pure list operations used by the review
  service. These are lookup by id, the duplicate-author check, removal by id,
  the edit window, and the uniqueness rules they keep.
- `review_paging.dfy` (`ReviewPaging`): the sort and the page slice of
  listReviews.
- `search.dfy` (`Search`): the search dispatch and Java's `trim`.
- `entities.dfy` (`Entities`): the `Restaurant` entity class, whose methods
  are the setters the services call. It also holds `RestaurantRepository`, a
  class around a map from id to record.
- `review_service.dfy` (`ReviewService`): `ReviewServiceImpl`.
- `restaurant_service.dfy` (`RestaurantService`): `RestaurantServiceImpl`.

Outside collaborators are modelled as follows:

- The repository is a map from id to record value. `FindById` hands out a
  fresh `Restaurant` object built from the stored value, as a document store
  does. `Save` stores a snapshot of the object under its id and returns it.
- The generated review id (`UUID.randomUUID()`) and the new restaurant's id
  are parameters. They must not already be in use.
- The clock (`LocalDateTime.now()`) is an integer parameter counting seconds.
- The geocoder's answer (`GeoLocationService.geoLocate`) is a parameter.

`RestaurantRepository.Valid()` states that every stored record sits under its
own id and is consistent. Consistent means three things: its average rating is
`AverageRating` of its reviews, its review ids are distinct, and no author has
two reviews. The empty repository is valid, and every create, update and
delete method requires and ensures it.

## Model

| member | source | states |
|---|---|---|
| `Domain.PhotosFrom` | src/main/java/com/noir/restaurant/services/impl/ReviewServiceImpl.java:50-53 | one photo per photo id, in order, each carrying that URL and the given upload date |
| `Domain.PhotoUrlsRoundTrip` | src/main/java/com/noir/restaurant/services/impl/RestaurantServiceImpl.java:35-43 | reading the URLs back from the built photos gives exactly the requested list |
| `Rating.AverageRating` | src/main/java/com/noir/restaurant/services/impl/ReviewServiceImpl.java:197-209 | the stored value: 0 for no reviews; otherwise the number whose product with the review count is the sum of the ratings, i.e. their exact mean |
| `Rating.AverageRatingWithin` | src/main/java/com/noir/restaurant/services/impl/ReviewServiceImpl.java:197-209 | if every rating lies in [lo, hi], a non-empty list's average lies in [lo, hi] |
| `Rating.AverageRatingPermutation` | src/main/java/com/noir/restaurant/services/impl/ReviewServiceImpl.java:197-209 | two lists holding the same reviews in any order have the same average |
| `Rating.RatingSumPermutation` | src/main/java/com/noir/restaurant/services/impl/ReviewServiceImpl.java:202-205 | the rating total is the same for any reordering of the reviews |
| `Rating.AverageRatingAppend` | src/main/java/com/noir/restaurant/services/impl/ReviewServiceImpl.java:67-69 | after appending a review, count times average grows by exactly that review's rating |
| `ReviewLists.FindReview` | src/main/java/com/noir/restaurant/services/impl/ReviewServiceImpl.java:29-32 | None exactly when no review has the id; otherwise the review at the first index carrying that id |
| `ReviewLists.HasReviewBy` | src/main/java/com/noir/restaurant/services/impl/ReviewServiceImpl.java:38-41 | true exactly when some review's author id equals the given id |
| `ReviewLists.WithoutReview` | src/main/java/com/noir/restaurant/services/impl/ReviewServiceImpl.java:177-181 | a review is kept exactly when it was in the list and its id differs; no review with that id remains and the list does not grow |
| `ReviewLists.WithoutReviewConcat` | src/main/java/com/noir/restaurant/services/impl/ReviewServiceImpl.java:177-181 | removal distributes over concatenation, so the kept reviews stay in their original order |
| `ReviewLists.WithoutReviewAt` | src/main/java/com/noir/restaurant/services/impl/ReviewServiceImpl.java:177-183 | with distinct ids, deleting the review at index k leaves the reviews before k followed by those after k |
| `ReviewLists.ReplaceMovesLast` | src/main/java/com/noir/restaurant/services/impl/ReviewServiceImpl.java:150-157 | the updated list is the others in order plus the edited review last; length kept, ids distinct, one review per author kept |
| `ReviewLists.WithoutKeepsUniqueness` | src/main/java/com/noir/restaurant/services/impl/ReviewServiceImpl.java:177-183 | removal keeps ids distinct and one review per author |
| `ReviewLists.AppendKeepsUniqueness` | src/main/java/com/noir/restaurant/services/impl/ReviewServiceImpl.java:38-67 | appending a review with an unused id by an author without a review keeps both uniqueness rules |
| `ReviewLists.FindAppended` | src/main/java/com/noir/restaurant/services/impl/ReviewServiceImpl.java:73-78 | a lookup by the fresh id in the extended list returns the appended review |
| `ReviewLists.EditWindowBoundary` | src/main/java/com/noir/restaurant/services/impl/ReviewServiceImpl.java:134-136 | the boundary cases of the window: an edit at 47h59m and at exactly 48h after posting is accepted, one at 48h1m is not; lastEdited plays no part |
| `ReviewLists.EditDeadline` | src/main/java/com/noir/restaurant/services/impl/ReviewServiceImpl.java:134 | the deadline lies exactly 48 hours (172800 seconds) after the posting date |
| `ReviewLists.CanStillEdit` | src/main/java/com/noir/restaurant/services/impl/ReviewServiceImpl.java:134-136 | an edit is accepted iff now is at most datePosted + 172800 seconds; any time up to the posting itself is accepted |
| `ReviewLists.Edited` | src/main/java/com/noir/restaurant/services/impl/ReviewServiceImpl.java:138-148 | content and rating from the request, lastEdited now, one photo per requested URL, in order, each uploaded now; id, author and datePosted kept, so the edit window is the same before and after the edit |
| `ReviewPaging.OrderingOf` | src/main/java/com/noir/restaurant/services/impl/ReviewServiceImpl.java:86-103 | only the first sort order counts; "rating" sorts by rating, any other property by datePosted, in the requested direction; no sort means datePosted descending |
| `ReviewPaging.Insert` | src/main/java/com/noir/restaurant/services/impl/ReviewServiceImpl.java:100-102 | inserting adds exactly that review to the list's multiset |
| `ReviewPaging.InsertSorted` | src/main/java/com/noir/restaurant/services/impl/ReviewServiceImpl.java:100-102 | inserting into a list in comparator order keeps it in comparator order |
| `ReviewPaging.Sorted` | src/main/java/com/noir/restaurant/services/impl/ReviewServiceImpl.java:100-102 | the sorted list is a permutation of the input and is in comparator order |
| `ReviewPaging.SortedKeys` | src/main/java/com/noir/restaurant/services/impl/ReviewServiceImpl.java:96-100 | ascending order never decreases the key and descending order never increases it |
| `ReviewPaging.PageOf` | src/main/java/com/noir/restaurant/services/impl/ReviewServiceImpl.java:105-111 | empty when offset >= size; otherwise min(pageSize, size - offset) reviews, the i-th being the list's (offset + i)-th |
| `ReviewPaging.PagesConcatenate` | src/main/java/com/noir/restaurant/services/impl/ReviewServiceImpl.java:105-111 | two consecutive pages together are the page of their combined size |
| `ReviewPaging.PageExamples` | src/main/java/com/noir/restaurant/services/impl/ReviewServiceImpl.java:105-111 | 25 reviews: offset 20 with size 20 gives the last 5; offset 30 gives none |
| `Search.TrimEmptyIffBlank` | src/main/java/com/noir/restaurant/services/impl/RestaurantServiceImpl.java:69 | `trim()` yields the empty string exactly when every character is at most U+0020 |
| `Search.Trim` | src/main/java/com/noir/restaurant/services/impl/RestaurantServiceImpl.java:69 | the result is the slice of the input between a blank prefix and a blank suffix, and when non-empty starts and ends with a character above U+0020 |
| `Search.SelectQuery` | src/main/java/com/noir/restaurant/services/impl/RestaurantServiceImpl.java:59-78 | rating-only query iff a floor is given and the text is null or empty; else text-plus-rating iff the text is not blank, floor defaulting to 0; else geo only with all three values; else findAll |
| `Search.WhitespaceQueryIgnoresRating` | src/main/java/com/noir/restaurant/services/impl/RestaurantServiceImpl.java:63-77 | a whitespace-only text goes to geo or findAll, whatever rating floor is given |
| `Search.SearchExamples` | src/main/java/com/noir/restaurant/services/impl/RestaurantServiceImpl.java:63-77 | floor only gives rating query; "sushi" with floor 4 gives text query with floor 4, without floor gives floor 0; geo triple gives geo; nothing gives findAll |
| `Entities.StorePut` | src/main/java/com/noir/restaurant/services/impl/ReviewServiceImpl.java:71 | saving a consistent record under its own id keeps the repository valid |
| `Entities.Restaurant.AddReview` | src/main/java/com/noir/restaurant/services/impl/ReviewServiceImpl.java:67 | the review is appended at the end; every other field is unchanged |
| `Entities.Restaurant.SetReviews` | src/main/java/com/noir/restaurant/services/impl/ReviewServiceImpl.java:157 | only the review list is replaced |
| `Entities.Restaurant.UpdateAverageRating` | src/main/java/com/noir/restaurant/services/impl/ReviewServiceImpl.java:197-209 | only averageRating changes, to the average of the current reviews |
| `Entities.Restaurant.SortReviews` | src/main/java/com/noir/restaurant/services/impl/ReviewServiceImpl.java:100-102 | only the review list changes; it becomes a permutation of the old list, in comparator order |
| `Entities.Restaurant.Overwrite` | src/main/java/com/noir/restaurant/services/impl/RestaurantServiceImpl.java:107-113 | name, cuisine, contact, address, geo point, hours and photos take the new values; id, reviews and averageRating are unchanged |
| `Entities.RestaurantRepository.FindById` | src/main/java/com/noir/restaurant/services/impl/RestaurantServiceImpl.java:82 | a fresh entity equal to the stored record iff the id is stored |
| `Entities.RestaurantRepository.Save` | src/main/java/com/noir/restaurant/services/impl/RestaurantServiceImpl.java:56 | the entity's snapshot is stored under its id and returned; other ids are untouched |
| `Entities.RestaurantRepository.DeleteById` | src/main/java/com/noir/restaurant/services/impl/RestaurantServiceImpl.java:119 | exactly that id is removed; every other id keeps its record |
| `ReviewService.AppendConsistent` | src/main/java/com/noir/restaurant/services/impl/ReviewServiceImpl.java:38-78 | a successful create leaves a consistent record in which the new id finds the new review |
| `ReviewService.CreatedBlocksSecond` | src/main/java/com/noir/restaurant/services/impl/ReviewServiceImpl.java:38-46 | after a create, the duplicate check holds for that author, so any second create by them fails |
| `ReviewService.DeleteOnlyReviewResetsRating` | src/main/java/com/noir/restaurant/services/impl/ReviewServiceImpl.java:177-200 | deleting a restaurant's only review sets its average to 0 |
| `ReviewService.EditedRatingAsIfInPlace` | src/main/java/com/noir/restaurant/services/impl/ReviewServiceImpl.java:150-159 | moving the edited review last stores the same average as replacing it where it stood |
| `ReviewService.WithReviews` | src/main/java/com/noir/restaurant/services/impl/ReviewServiceImpl.java:157-159 | the record with the review list replaced and the average recomputed from it, every other field kept; consistent whenever the new list keeps ids distinct and one review per author |
| `ReviewService.NewReview` | src/main/java/com/noir/restaurant/services/impl/ReviewServiceImpl.java:57-65 | the fresh id, the caller as author, the request's content and rating, posted and last edited now, one photo per requested URL, in order, each uploaded now; a new review is editable at the moment it is created |
| `ReviewService.ReviewServiceImpl.GetRestaurantOrThrow` | src/main/java/com/noir/restaurant/services/impl/ReviewServiceImpl.java:190-195 | a fresh entity equal to the stored record, or RestaurantNotFound for an unknown id |
| `ReviewService.ReviewServiceImpl.CreateReview` | src/main/java/com/noir/restaurant/services/impl/ReviewServiceImpl.java:35-79 | unknown restaurant gives RestaurantNotFound, and an author who already reviewed gives ReviewNotAllowed, store unchanged in both; otherwise returns the new review (fresh id, request content and rating, photos, posted and edited now, caller as author) and stores the record with it appended and the average recomputed |
| `ReviewService.ReviewServiceImpl.CreateTwice` | src/main/java/com/noir/restaurant/services/impl/ReviewServiceImpl.java:35-46 | two createReview calls by one author on one restaurant: the second always fails with ReviewNotAllowed (already reviewed), whatever the first returned |
| `ReviewService.ReviewServiceImpl.CreateThenGet` | src/main/java/com/noir/restaurant/services/impl/ReviewServiceImpl.java:35-118 | for an author without a review, createReview returns the built review and getReview with its id then returns that same review |
| `ReviewService.ReviewServiceImpl.ListReviews` | src/main/java/com/noir/restaurant/services/impl/ReviewServiceImpl.java:82-112 | unknown restaurant gives RestaurantNotFound; otherwise total is the list size and content is the page of the sorted permutation of the stored reviews; nothing is saved |
| `ReviewService.ReviewServiceImpl.GetReview` | src/main/java/com/noir/restaurant/services/impl/ReviewServiceImpl.java:115-118 | RestaurantNotFound for an unknown restaurant; otherwise the first review with the id, if any |
| `ReviewService.ReviewServiceImpl.UpdateReview` | src/main/java/com/noir/restaurant/services/impl/ReviewServiceImpl.java:121-164 | NotFound, then ReviewNotAllowed for a missing id, another author, or now after datePosted + 48h, store unchanged; otherwise returns the edited review (content, rating, photos, lastEdited now; id, datePosted, author kept) and stores the others in order plus it last, average recomputed |
| `ReviewService.ReviewServiceImpl.DeleteReview` | src/main/java/com/noir/restaurant/services/impl/ReviewServiceImpl.java:167-188 | NotFound, then ReviewNotAllowed for a missing id or another author, store unchanged; no time check; otherwise stores the reviews without that id, in order, average recomputed |
| `RestaurantService.RestaurantServiceImpl.CreateRestaurant` | src/main/java/com/noir/restaurant/services/impl/RestaurantServiceImpl.java:30-57 | stores and returns a record with the request's fields, the geocoded point, average 0, no reviews, and one photo per id in order |
| `RestaurantService.RestaurantServiceImpl.GetRestaurant` | src/main/java/com/noir/restaurant/services/impl/RestaurantServiceImpl.java:81-83 | the stored record as a fresh entity, or None |
| `RestaurantService.RestaurantServiceImpl.UpdateRestaurant` | src/main/java/com/noir/restaurant/services/impl/RestaurantServiceImpl.java:87-115 | unknown id gives RestaurantNotFound with the store unchanged; otherwise overwrites the described fields and keeps id, reviews and averageRating |
| `RestaurantService.RestaurantServiceImpl.DeleteRestaurant` | src/main/java/com/noir/restaurant/services/impl/RestaurantServiceImpl.java:117-120 | the record and its embedded reviews are removed, an unknown id is not an error, and the repository stays valid |
| `RestaurantService.ToGeoPoint` | src/main/java/com/noir/restaurant/services/impl/RestaurantServiceImpl.java:33 | the stored point carries the geocoder's latitude and longitude |

## Left out

- The average is an exact rational mean. The source casts a double mean to `float`, so stored values may be rounded; that rounding is not modelled.
- The clock is one reading per operation. updateReview reads `LocalDateTime.now()` separately for the window check, `lastEdited` and each photo. createRestaurant and updateRestaurant read it once per photo. Here every such reading in one operation uses the same `now`, so all photos of one call share one upload date. Times are whole seconds, without sub-second precision.
- Ratings are unbounded integers. A null rating (which would throw in the mean and the comparator) is not modelled, and neither is a range check, because the service has none.
- The integer cast of the page offset and the int overflow of `start + pageSize` are not modelled: offsets and sizes are unbounded naturals.
- `ReviewPaging.Sorted` is one stable sort (insertion sort) standing for `List.sort`. The contracts state order and permutation; stability among equal keys is not stated.
- The controllers (routing, JWT-to-user mapping, turning the 1-based `page` into page index `page - 1` at src/main/java/com/noir/restaurant/controllers/RestaurantController.java:44), the mappers and the DTO validation annotations are not modelled.
- Repository query execution (full-text, rating range, geo radius, paging of restaurants) is external. `Search.SelectQuery` only says which query runs and with which arguments. The page request is passed to it unchanged and is not modelled there.
- Geocoder failures are not modelled: the geocoder's answer is a parameter.
- Concurrency is not modelled: each operation is atomic. The unguarded load-change-save race between concurrent requests is out of scope.
- The entity classes (`Restaurant`, `Review`, `Photo`, `User`) are modelled only through the fields that the services' builders and setters use. Their defaults and annotations are not modelled, and a new restaurant is assumed to start with an empty review list.
- In the source, updateReview changes the loaded review object through its setters before it rebuilds the list. Here the review is a value and the edit builds a new one. This cannot be observed, because the old entry is filtered out.
- The internal error when createReview cannot find its new review in the saved record is modelled as a branch. With a fresh id it cannot occur, and `ReviewLists.FindAppended` proves this.
