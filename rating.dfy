/** The rating aggregate of a restaurant: the exact mean of its review
    ratings, or 0 when it has no reviews. */
module Rating {
  import opened Domain

  /** Sum of the ratings, accumulated from the last review backwards. */
  function RatingSum(reviews: seq<Review>): int
  {
    if reviews == [] then 0
    else RatingSum(reviews[..|reviews| - 1]) + reviews[|reviews| - 1].rating
  }

  /** The value `updateRestaurantAverageRating` stores: 0 for no reviews,
      otherwise the number whose product with the review count is the total
      of the ratings, that is, their arithmetic mean. */
  function AverageRating(reviews: seq<Review>): (average: real)
    ensures |reviews| == 0 ==> average == 0.0
    ensures |reviews| > 0 ==> average * (|reviews| as real) == RatingSum(reviews) as real
  {
    if |reviews| == 0 then 0.0 else RatingSum(reviews) as real / (|reviews| as real)
  }

  lemma {:induction false} RatingSumConcat(a: seq<Review>, b: seq<Review>)
    ensures RatingSum(a + b) == RatingSum(a) + RatingSum(b)
    decreases |b|
  {
    if b == [] {
      assert a + b == a;
    } else {
      var n := |b| - 1;
      assert (a + b)[..|a + b| - 1] == a + b[..n];
      RatingSumConcat(a, b[..n]);
    }
  }

  /** The sum, and so the mean, does not depend on the order of the reviews. */
  lemma {:induction false} RatingSumPermutation(a: seq<Review>, b: seq<Review>)
    requires multiset(a) == multiset(b)
    ensures RatingSum(a) == RatingSum(b)
    decreases |a|
  {
    if a != [] {
      var n := |a| - 1;
      var x := a[n];
      assert a == a[..n] + [x];
      assert x in multiset(b);
      var k :| 0 <= k < |b| && b[k] == x;
      var rest := b[..k] + b[k + 1..];
      assert b == b[..k] + [x] + b[k + 1..];
      assert multiset(b) == multiset(rest) + multiset{x};
      assert multiset(a) == multiset(a[..n]) + multiset{x};
      assert multiset(a[..n]) == multiset(a) - multiset{x};
      assert multiset(rest) == multiset(b) - multiset{x};
      RatingSumPermutation(a[..n], rest);
      RatingSumConcat(b[..k] + [x], b[k + 1..]);
      RatingSumConcat(b[..k], [x]);
      RatingSumConcat(b[..k], b[k + 1..]);
    }
  }

  lemma AverageRatingPermutation(a: seq<Review>, b: seq<Review>)
    requires multiset(a) == multiset(b)
    ensures AverageRating(a) == AverageRating(b)
  {
    RatingSumPermutation(a, b);
    assert |a| == |multiset(a)| == |multiset(b)| == |b|;
  }

  lemma {:induction false} RatingSumBounds(reviews: seq<Review>, lo: real, hi: real)
    requires forall i :: 0 <= i < |reviews| ==> lo <= reviews[i].rating as real <= hi
    ensures lo * (|reviews| as real) <= RatingSum(reviews) as real <= hi * (|reviews| as real)
  {
    if reviews != [] {
      var m := |reviews| - 1;
      var init := reviews[..m];
      assert forall i :: 0 <= i < |init| ==> init[i] == reviews[i];
      RatingSumBounds(init, lo, hi);
      BoundsStep(lo, hi, m as real, RatingSum(init) as real, reviews[m].rating as real);
      assert |reviews| as real == m as real + 1.0;
    }
  }

  /** One more term within [lo, hi] keeps a total within count times the bounds. */
  lemma BoundsStep(lo: real, hi: real, count: real, before: real, last: real)
    requires lo * count <= before <= hi * count
    requires lo <= last <= hi
    ensures lo * (count + 1.0) <= before + last <= hi * (count + 1.0)
  {
    assert lo * (count + 1.0) == lo * count + lo;
    assert hi * (count + 1.0) == hi * count + hi;
  }

  /** When every rating lies in [lo, hi] (1 to 5 in the user interface), so does
      the stored average of a restaurant with at least one review. */
  lemma AverageRatingWithin(reviews: seq<Review>, lo: int, hi: int)
    requires |reviews| > 0
    requires forall i :: 0 <= i < |reviews| ==> lo <= reviews[i].rating <= hi
    ensures lo as real <= AverageRating(reviews) <= hi as real
  {
    RatingSumBounds(reviews, lo as real, hi as real);
    QuotientBounds(RatingSum(reviews) as real, |reviews| as real, lo as real, hi as real);
  }

  lemma QuotientBounds(total: real, n: real, lo: real, hi: real)
    requires n > 0.0 && lo * n <= total <= hi * n
    ensures lo <= total / n <= hi
  {
  }

  /** Moving one review from its place to the end leaves the sum unchanged. */
  lemma RatingSumMoveLast(front: seq<Review>, x: Review, back: seq<Review>)
    ensures RatingSum(front + back + [x]) == RatingSum(front + [x] + back)
  {
    RatingSumConcat(front + [x], back);
    RatingSumConcat(front, [x]);
    RatingSumConcat(front, back);
    assert (front + back + [x])[..|front + back|] == front + back;
  }

  /** Appending one review moves the total by exactly that review's rating. */
  lemma AverageRatingAppend(reviews: seq<Review>, added: Review)
    ensures AverageRating(reviews + [added]) * ((|reviews| + 1) as real)
         == AverageRating(reviews) * (|reviews| as real) + added.rating as real
  {
    assert (reviews + [added])[..|reviews|] == reviews;
  }
}
