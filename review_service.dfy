/** ReviewServiceImpl: the review lifecycle inside a restaurant record. Each
    operation loads the record, changes the loaded entity, recomputes the
    average rating and saves the whole record back. */
module ReviewService {
  import opened Domain
  import opened Rating
  import opened ReviewLists
  import opened ReviewPaging
  import opened Entities

  /** The record after its review list became `reviews` and its rating was
      recomputed from them. */
  function WithReviews(doc: RestaurantDoc, reviews: seq<Review>): (updated: RestaurantDoc)
    ensures updated.reviews == reviews && updated.averageRating == AverageRating(reviews)
    ensures updated.(reviews := doc.reviews, averageRating := doc.averageRating) == doc
    ensures ReviewIdsUnique(reviews) && OneReviewPerAuthor(reviews) ==> Consistent(updated)
  {
    doc.(reviews := reviews, averageRating := AverageRating(reviews))
  }

  /** The review createReview builds: fresh id, request content and rating,
      one photo per id, posted and last edited now, written by the caller. */
  function NewReview(reviewId: Id, request: ReviewRequest, author: User, now: Timestamp): (created: Review)
    ensures created.id == reviewId && created.writtenBy == author
    ensures created.content == request.content && created.rating == request.rating
    ensures created.datePosted == now && created.lastEdited == now
    ensures created.photos == PhotosFrom(request.photoIds, now)
    ensures PhotoUrls(created.photos) == request.photoIds
    ensures CanStillEdit(created, now)
  {
    PhotoUrlsRoundTrip(request.photoIds, now);
    Review(reviewId, request.content, request.rating, PhotosFrom(request.photoIds, now), now, now, author)
  }

  /** Appending a review with a fresh id by an author without a review keeps
      the record consistent, and a lookup by the new id finds that review. */
  lemma AppendConsistent(before: RestaurantDoc, created: Review)
    requires Consistent(before)
    requires IdUnused(before.reviews, created.id)
    requires !HasReviewBy(before.reviews, created.writtenBy.id)
    ensures Consistent(WithReviews(before, before.reviews + [created]))
    ensures FindReview(created.id, before.reviews + [created]) == Some(created)
  {
    AppendKeepsUniqueness(before.reviews, created);
    FindAppended(before.reviews, created);
  }

  /** Once createReview has succeeded, the author has a review in the list, so
      a second createReview by the same author is rejected whatever it asks. */
  lemma CreatedBlocksSecond(reviews: seq<Review>, reviewId: Id, request: ReviewRequest,
                            author: User, now: Timestamp, other: User)
    requires other.id == author.id
    ensures HasReviewBy(reviews + [NewReview(reviewId, request, author, now)], other.id)
  {
    var extended := reviews + [NewReview(reviewId, request, author, now)];
    assert extended[|reviews|].writtenBy.id == other.id;
  }

  /** Deleting the only review of a restaurant resets its rating to 0. */
  lemma DeleteOnlyReviewResetsRating(doc: RestaurantDoc)
    requires |doc.reviews| == 1
    ensures WithReviews(doc, WithoutReview(doc.reviews, doc.reviews[0].id)).averageRating == 0.0
  {
    assert doc.reviews[1..] == [];
  }

  /** Although updateReview moves the edited review to the end, the rating it
      stores is the one of the list with the review replaced where it stood. */
  lemma EditedRatingAsIfInPlace(reviews: seq<Review>, k: nat, edited: Review)
    requires k < |reviews|
    requires ReviewIdsUnique(reviews)
    requires edited.id == reviews[k].id && edited.writtenBy == reviews[k].writtenBy
    ensures AverageRating(WithoutReview(reviews, edited.id) + [edited]) == AverageRating(reviews[k := edited])
  {
    var front, back := reviews[..k], reviews[k + 1..];
    WithoutReviewAt(reviews, k);
    SpliceAt(reviews, k, edited);
    RatingSumMoveLast(front, edited, back);
  }

  class ReviewServiceImpl {
    const repository: RestaurantRepository

    constructor (repository: RestaurantRepository)
      ensures this.repository == repository
    {
      this.repository := repository;
    }

    /** getRestaurantOrThrow. */
    method GetRestaurantOrThrow(restaurantId: Id) returns (result: Result<Restaurant>)
      ensures result.Ok? <==> restaurantId in repository.store
      ensures result.Ok? ==> fresh(result.value) && result.value.Snapshot() == repository.store[restaurantId]
      ensures result.Err? ==> result.error == RestaurantNotFound(restaurantId)
    {
      var found := repository.FindById(restaurantId);
      if found.None? {
        return Err(RestaurantNotFound(restaurantId));
      }
      return Ok(found.value);
    }

    /** createReview. `reviewId` is the generated UUID, `now` the clock. */
    method CreateReview(author: User, restaurantId: Id, request: ReviewRequest,
                        reviewId: Id, now: Timestamp) returns (result: Result<Review>)
      requires repository.Valid()
      requires restaurantId in repository.store ==> IdUnused(repository.store[restaurantId].reviews, reviewId)
      modifies repository
      ensures repository.Valid()
      ensures restaurantId !in old(repository.store) ==>
        result == Err(RestaurantNotFound(restaurantId)) && repository.store == old(repository.store)
      ensures restaurantId in old(repository.store) && HasReviewBy(old(repository.store)[restaurantId].reviews, author.id) ==>
        result == Err(ReviewNotAllowed(AlreadyReviewed)) && repository.store == old(repository.store)
      ensures restaurantId in old(repository.store) && !HasReviewBy(old(repository.store)[restaurantId].reviews, author.id) ==>
        var before := old(repository.store)[restaurantId];
        var created := NewReview(reviewId, request, author, now);
        && result == Ok(created)
        && repository.store == old(repository.store)[restaurantId := WithReviews(before, before.reviews + [created])]
    {
      var loaded := GetRestaurantOrThrow(restaurantId);
      if loaded.Err? {
        return Err(loaded.error);
      }
      var restaurant := loaded.value;
      if HasReviewBy(restaurant.reviews, author.id) {
        return Err(ReviewNotAllowed(AlreadyReviewed));
      }
      var created := NewReview(reviewId, request, author, now);
      ghost var before := restaurant.Snapshot();
      restaurant.AddReview(created);
      restaurant.UpdateAverageRating();
      var saved := repository.Save(restaurant);
      assert saved == WithReviews(before, before.reviews + [created]);
      AppendConsistent(before, created);
      StorePut(old(repository.store), saved);
      var found := FindReview(reviewId, saved.reviews);
      if found.None? {
        return Err(Internal);
      }
      return Ok(found.value);
    }

    /** Two createReview calls by one author on one restaurant: whatever the
        first returns, the second is rejected as a duplicate and changes
        nothing. */
    method CreateTwice(author: User, restaurantId: Id, first: ReviewRequest, second: ReviewRequest,
                       firstId: Id, secondId: Id, now: Timestamp, later: Timestamp)
      returns (firstResult: Result<Review>, secondResult: Result<Review>)
      requires repository.Valid()
      requires restaurantId in repository.store
      requires IdUnused(repository.store[restaurantId].reviews, firstId)
      requires IdUnused(repository.store[restaurantId].reviews, secondId) && secondId != firstId
      modifies repository
      ensures repository.Valid()
      ensures secondResult == Err(ReviewNotAllowed(AlreadyReviewed))
    {
      ghost var reviews := repository.store[restaurantId].reviews;
      firstResult := CreateReview(author, restaurantId, first, firstId, now);
      if !HasReviewBy(reviews, author.id) {
        var created := NewReview(firstId, first, author, now);
        CreatedBlocksSecond(reviews, firstId, first, author, now, author);
        assert repository.store[restaurantId].reviews == reviews + [created];
        assert IdUnused(reviews + [created], secondId) by {
          forall i | 0 <= i < |reviews| + 1 ensures (reviews + [created])[i].id != secondId {
            if i < |reviews| { assert (reviews + [created])[i] == reviews[i]; }
          }
        }
      }
      secondResult := CreateReview(author, restaurantId, second, secondId, later);
    }

    /** createReview followed by getReview with the returned id: an author
        without a review gets the created review back. */
    method CreateThenGet(author: User, restaurantId: Id, request: ReviewRequest,
                         reviewId: Id, now: Timestamp)
      returns (created: Result<Review>, fetched: Result<Option<Review>>)
      requires repository.Valid()
      requires restaurantId in repository.store
      requires IdUnused(repository.store[restaurantId].reviews, reviewId)
      requires !HasReviewBy(repository.store[restaurantId].reviews, author.id)
      modifies repository
      ensures repository.Valid()
      ensures created == Ok(NewReview(reviewId, request, author, now))
      ensures fetched == Ok(Some(created.value))
    {
      ghost var reviews := repository.store[restaurantId].reviews;
      created := CreateReview(author, restaurantId, request, reviewId, now);
      FindAppended(reviews, created.value);
      fetched := GetReview(restaurantId, created.value.id);
    }

    /** listReviews: sorts the loaded list in place, then returns one page of it
        and the list's size. Nothing is saved. */
    method ListReviews(restaurantId: Id, pageable: Pageable) returns (result: Result<Page>)
      ensures restaurantId !in repository.store ==> result == Err(RestaurantNotFound(restaurantId))
      ensures restaurantId in repository.store ==>
        var reviews := repository.store[restaurantId].reviews;
        var sorted := Sorted(reviews, OrderingOf(pageable.sort));
        && result.Ok?
        && result.value.totalElements == |reviews|
        && result.value.content == PageOf(sorted, pageable.Offset(), pageable.pageSize)
        && multiset(sorted) == multiset(reviews)
        && SortedBy(sorted, OrderingOf(pageable.sort))
    {
      var loaded := GetRestaurantOrThrow(restaurantId);
      if loaded.Err? {
        return Err(loaded.error);
      }
      var restaurant := loaded.value;
      restaurant.SortReviews(OrderingOf(pageable.sort));
      var reviews := restaurant.reviews;
      var start := pageable.Offset();
      if start >= |reviews| {
        return Ok(Page([], |reviews|));
      }
      var end := Min(start + pageable.pageSize, |reviews|);
      return Ok(Page(reviews[start..end], |reviews|));
    }

    /** getReview: the first review with that id, if any. */
    method GetReview(restaurantId: Id, reviewId: Id) returns (result: Result<Option<Review>>)
      ensures restaurantId !in repository.store ==> result == Err(RestaurantNotFound(restaurantId))
      ensures restaurantId in repository.store ==>
        result == Ok(FindReview(reviewId, repository.store[restaurantId].reviews))
    {
      var loaded := GetRestaurantOrThrow(restaurantId);
      if loaded.Err? {
        return Err(loaded.error);
      }
      return Ok(FindReview(reviewId, loaded.value.reviews));
    }

    /** updateReview: only the author, only within 48 hours of posting. The
        edited review is moved to the end of the list. */
    method UpdateReview(author: User, restaurantId: Id, reviewId: Id, request: ReviewRequest,
                        now: Timestamp) returns (result: Result<Review>)
      requires repository.Valid()
      modifies repository
      ensures repository.Valid()
      ensures restaurantId !in old(repository.store) ==>
        result == Err(RestaurantNotFound(restaurantId)) && repository.store == old(repository.store)
      ensures restaurantId in old(repository.store) ==>
        var before := old(repository.store)[restaurantId];
        match FindReview(reviewId, before.reviews)
        case None =>
          result == Err(ReviewNotAllowed(ReviewDoesNotExist)) && repository.store == old(repository.store)
        case Some(existing) =>
          if existing.writtenBy.id != author.id then
            result == Err(ReviewNotAllowed(NotAuthor)) && repository.store == old(repository.store)
          else if !CanStillEdit(existing, now) then
            result == Err(ReviewNotAllowed(EditWindowClosed)) && repository.store == old(repository.store)
          else
            var edited := Edited(existing, request, now);
            && result == Ok(edited)
            && repository.store == old(repository.store)[restaurantId :=
                 WithReviews(before, WithoutReview(before.reviews, reviewId) + [edited])]
    {
      var loaded := GetRestaurantOrThrow(restaurantId);
      if loaded.Err? {
        return Err(loaded.error);
      }
      var restaurant := loaded.value;
      var authorId := author.id;
      var lookup := FindReview(reviewId, restaurant.reviews);
      if lookup.None? {
        return Err(ReviewNotAllowed(ReviewDoesNotExist));
      }
      var existing := lookup.value;
      if existing.writtenBy.id != authorId {
        return Err(ReviewNotAllowed(NotAuthor));
      }
      if now > EditDeadline(existing.datePosted) {
        return Err(ReviewNotAllowed(EditWindowClosed));
      }
      var edited := Edited(existing, request, now);
      var updatedReviews := WithoutReview(restaurant.reviews, reviewId) + [edited];
      ghost var k :| 0 <= k < |restaurant.reviews| && restaurant.reviews[k] == existing && existing.id == reviewId;
      ReplaceMovesLast(restaurant.reviews, k, edited);
      restaurant.SetReviews(updatedReviews);
      restaurant.UpdateAverageRating();
      var _ := repository.Save(restaurant);
      return Ok(edited);
    }

    /** deleteReview: only the author; no time limit. Every review with that id
        is removed and the others keep their order. */
    method DeleteReview(author: User, restaurantId: Id, reviewId: Id) returns (result: Result<()>)
      requires repository.Valid()
      modifies repository
      ensures repository.Valid()
      ensures restaurantId !in old(repository.store) ==>
        result == Err(RestaurantNotFound(restaurantId)) && repository.store == old(repository.store)
      ensures restaurantId in old(repository.store) ==>
        var before := old(repository.store)[restaurantId];
        match FindReview(reviewId, before.reviews)
        case None =>
          result == Err(ReviewNotAllowed(ReviewDoesNotExist)) && repository.store == old(repository.store)
        case Some(existing) =>
          if existing.writtenBy.id != author.id then
            result == Err(ReviewNotAllowed(NotAuthor)) && repository.store == old(repository.store)
          else
            && result == Ok(())
            && repository.store == old(repository.store)[restaurantId :=
                 WithReviews(before, WithoutReview(before.reviews, reviewId))]
    {
      var loaded := GetRestaurantOrThrow(restaurantId);
      if loaded.Err? {
        return Err(loaded.error);
      }
      var restaurant := loaded.value;
      var lookup := FindReview(reviewId, restaurant.reviews);
      if lookup.None? {
        return Err(ReviewNotAllowed(ReviewDoesNotExist));
      }
      if lookup.value.writtenBy.id != author.id {
        return Err(ReviewNotAllowed(NotAuthor));
      }
      var filtered := WithoutReview(restaurant.reviews, reviewId);
      WithoutKeepsUniqueness(restaurant.reviews, reviewId);
      restaurant.SetReviews(filtered);
      restaurant.UpdateAverageRating();
      var _ := repository.Save(restaurant);
      return Ok(());
    }
  }
}
