/** Pure operations on a restaurant's embedded review list: lookup by id, the
    one-review-per-author check, removal by id, and the edit window. */
module ReviewLists {
  import opened Domain

  /** No review in the list carries `id`. */
  ghost predicate IdUnused(reviews: seq<Review>, id: Id)
  {
    forall i :: 0 <= i < |reviews| ==> reviews[i].id != id
  }

  /** Review ids are pairwise distinct. */
  ghost predicate ReviewIdsUnique(reviews: seq<Review>)
  {
    forall i, j :: 0 <= i < j < |reviews| ==> reviews[i].id != reviews[j].id
  }

  /** At most one review per author id. */
  ghost predicate OneReviewPerAuthor(reviews: seq<Review>)
  {
    forall i, j :: 0 <= i < j < |reviews| ==> reviews[i].writtenBy.id != reviews[j].writtenBy.id
  }

  /** The first review whose id is `reviewId`, if any (getReviewFromRestaurant). */
  function FindReview(reviewId: Id, reviews: seq<Review>): (found: Option<Review>)
    ensures found.None? <==> IdUnused(reviews, reviewId)
    ensures found.Some? ==> exists k :: 0 <= k < |reviews| && reviews[k] == found.value
                                        && reviews[k].id == reviewId && IdUnused(reviews[..k], reviewId)
  {
    if reviews == [] then None
    else if reviews[0].id == reviewId then
      assert reviews[..0] == [];
      Some(reviews[0])
    else
      var found := FindReview(reviewId, reviews[1..]);
      if found.Some? then
        ghost var k :| 0 <= k < |reviews| - 1 && reviews[1..][k] == found.value
                      && reviews[1..][k].id == reviewId && IdUnused(reviews[1..][..k], reviewId);
        assert reviews[..k + 1] == [reviews[0]] + reviews[1..][..k];
        found
      else
        found
  }

  /** Whether some review was written by the author with id `authorId`
      (the anyMatch duplicate check of createReview). */
  function HasReviewBy(reviews: seq<Review>, authorId: Id): (written: bool)
    ensures written <==> exists i :: 0 <= i < |reviews| && reviews[i].writtenBy.id == authorId
  {
    if reviews == [] then false
    else reviews[0].writtenBy.id == authorId || HasReviewBy(reviews[1..], authorId)
  }

  /** The reviews whose id is not `reviewId`, in their original order. */
  function WithoutReview(reviews: seq<Review>, reviewId: Id): (kept: seq<Review>)
    ensures |kept| <= |reviews|
    ensures IdUnused(kept, reviewId)
    ensures forall r :: r in kept <==> r in reviews && r.id != reviewId
  {
    if reviews == [] then []
    else if reviews[0].id == reviewId then WithoutReview(reviews[1..], reviewId)
    else [reviews[0]] + WithoutReview(reviews[1..], reviewId)
  }

  /** Removal by id distributes over concatenation: together with its value on a
      single review, this pins the result down to "the others, in order". */
  lemma {:induction false} WithoutReviewConcat(a: seq<Review>, b: seq<Review>, reviewId: Id)
    ensures WithoutReview(a + b, reviewId) == WithoutReview(a, reviewId) + WithoutReview(b, reviewId)
  {
    if a == [] {
      assert a + b == b;
    } else {
      assert (a + b)[1..] == a[1..] + b;
      WithoutReviewConcat(a[1..], b, reviewId);
    }
  }

  lemma {:induction false} WithoutUnusedId(reviews: seq<Review>, reviewId: Id)
    requires IdUnused(reviews, reviewId)
    ensures WithoutReview(reviews, reviewId) == reviews
  {
    if reviews != [] {
      WithoutUnusedId(reviews[1..], reviewId);
    }
  }

  /** With unique ids, removing the review at index k leaves exactly the
      reviews before it followed by the reviews after it. */
  lemma {:induction false} WithoutReviewAt(reviews: seq<Review>, k: nat)
    requires k < |reviews|
    requires ReviewIdsUnique(reviews)
    ensures WithoutReview(reviews, reviews[k].id) == reviews[..k] + reviews[k + 1..]
  {
    var id := reviews[k].id;
    if k == 0 {
      assert IdUnused(reviews[1..], id) by {
        forall i | 0 <= i < |reviews[1..]| ensures reviews[1..][i].id != id {
          assert reviews[1..][i] == reviews[i + 1];
        }
      }
      WithoutUnusedId(reviews[1..], id);
    } else {
      var tail := reviews[1..];
      assert tail[k - 1] == reviews[k];
      assert ReviewIdsUnique(tail) by {
        forall i, j | 0 <= i < j < |tail| ensures tail[i].id != tail[j].id {
          assert tail[i] == reviews[i + 1] && tail[j] == reviews[j + 1];
        }
      }
      WithoutReviewAt(tail, k - 1);
      assert reviews[..k] == [reviews[0]] + tail[..k - 1];
      assert reviews[k + 1..] == tail[k..];
    }
  }

  lemma SpliceAt(reviews: seq<Review>, k: nat, x: Review)
    requires k < |reviews|
    ensures reviews[k := x] == reviews[..k] + [x] + reviews[k + 1..]
  {
  }

  /** The review list that updateReview stores: the others in order, then the
      edited review. It keeps the list length, the ids unique and the
      one-review-per-author rule, provided the edit keeps id and author. */
  lemma ReplaceMovesLast(reviews: seq<Review>, k: nat, edited: Review)
    requires k < |reviews|
    requires ReviewIdsUnique(reviews)
    requires edited.id == reviews[k].id && edited.writtenBy == reviews[k].writtenBy
    ensures WithoutReview(reviews, edited.id) + [edited] == reviews[..k] + reviews[k + 1..] + [edited]
    ensures |WithoutReview(reviews, edited.id) + [edited]| == |reviews|
    ensures ReviewIdsUnique(WithoutReview(reviews, edited.id) + [edited])
    ensures OneReviewPerAuthor(reviews) ==> OneReviewPerAuthor(WithoutReview(reviews, edited.id) + [edited])
  {
    WithoutReviewAt(reviews, k);
    var result := reviews[..k] + reviews[k + 1..] + [edited];
    forall i | 0 <= i < |result| - 1
      ensures result[i] == reviews[if i < k then i else i + 1]
    {
    }
  }

  /** Filtering can only shrink a list, and the rules on ids and authors
      survive it. */
  lemma {:induction false} WithoutKeepsUniqueness(reviews: seq<Review>, reviewId: Id)
    ensures ReviewIdsUnique(reviews) ==> ReviewIdsUnique(WithoutReview(reviews, reviewId))
    ensures OneReviewPerAuthor(reviews) ==> OneReviewPerAuthor(WithoutReview(reviews, reviewId))
  {
    if reviews != [] {
      WithoutKeepsUniqueness(reviews[1..], reviewId);
      var rest := WithoutReview(reviews[1..], reviewId);
      if reviews[0].id != reviewId {
        var kept := [reviews[0]] + rest;
        forall j | 0 < j < |kept|
          ensures kept[j] in reviews[1..]
        {
          assert kept[j] in rest;
        }
      }
    }
  }

  /** Appending a review whose id is unused and whose author has no review yet
      keeps both uniqueness rules. */
  lemma AppendKeepsUniqueness(reviews: seq<Review>, added: Review)
    requires IdUnused(reviews, added.id)
    requires !HasReviewBy(reviews, added.writtenBy.id)
    ensures ReviewIdsUnique(reviews) ==> ReviewIdsUnique(reviews + [added])
    ensures OneReviewPerAuthor(reviews) ==> OneReviewPerAuthor(reviews + [added])
  {
  }

  /** The appended review is the one a lookup by its (fresh) id returns. */
  lemma FindAppended(reviews: seq<Review>, added: Review)
    requires IdUnused(reviews, added.id)
    ensures FindReview(added.id, reviews + [added]) == Some(added)
  {
    var found := FindReview(added.id, reviews + [added]);
    var k :| 0 <= k < |reviews| + 1 && (reviews + [added])[k] == found.value && (reviews + [added])[k].id == added.id;
    assert k == |reviews|;
  }

  /** The edit deadline: `isAfter(datePosted + 48h)` rejects, so an edit at
      exactly 48 hours is still accepted. */
  function EditDeadline(datePosted: Timestamp): (deadline: Timestamp)
    ensures deadline > datePosted
    ensures deadline - datePosted == 48 * 3600
  {
    datePosted + EDIT_WINDOW_HOURS * SECONDS_PER_HOUR
  }

  /** Whether an edit at `now` is still accepted: not after the deadline. */
  function CanStillEdit(review: Review, now: Timestamp): (allowed: bool)
    ensures allowed <==> now <= review.datePosted + 172800
    ensures now <= review.datePosted ==> allowed
  {
    !(now > EditDeadline(review.datePosted))
  }

  /** Edits are accepted up to and including 48 hours after posting, and
      rejected from 48 hours and one second on; the window is anchored on
      datePosted, whatever lastEdited says. */
  lemma EditWindowBoundary(review: Review, now: Timestamp)
    ensures CanStillEdit(review, review.datePosted + 47 * 3600 + 59 * 60)
    ensures CanStillEdit(review, review.datePosted + 48 * 3600)
    ensures !CanStillEdit(review, review.datePosted + 48 * 3600 + 60)
    ensures CanStillEdit(review.(lastEdited := now), now) == CanStillEdit(review, now)
  {
  }

  /** The review as updateReview leaves it: new content, rating and photos,
      lastEdited moved to now, id, datePosted and author kept. Because the
      posting date is kept, editing never reopens or extends the window. */
  function Edited(existing: Review, request: ReviewRequest, now: Timestamp): (edited: Review)
    ensures edited.id == existing.id && edited.writtenBy == existing.writtenBy
    ensures edited.datePosted == existing.datePosted && edited.lastEdited == now
    ensures edited.content == request.content && edited.rating == request.rating
    ensures edited.photos == PhotosFrom(request.photoIds, now)
    ensures PhotoUrls(edited.photos) == request.photoIds
    ensures forall later :: CanStillEdit(edited, later) == CanStillEdit(existing, later)
  {
    PhotoUrlsRoundTrip(request.photoIds, now);
    existing.(content := request.content,
              rating := request.rating,
              lastEdited := now,
              photos := PhotosFrom(request.photoIds, now))
  }
}
