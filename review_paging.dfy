/** Sorting and slicing of the embedded review list for listReviews. */
module ReviewPaging {
  import opened Domain

  /** One order of a pageable's sort: a property and a direction. */
  datatype SortOrder = SortOrder(property: string, ascending: bool)

  /** A zero-based page request; its offset is pageNumber * pageSize. An empty
      `sort` is an unsorted request. */
  datatype Pageable = Pageable(pageNumber: nat, pageSize: nat, sort: seq<SortOrder>)
  {
    function Offset(): nat { pageNumber * pageSize }
  }

  /** One page of reviews and the size of the whole list. */
  datatype Page = Page(content: seq<Review>, totalElements: nat)

  /** How a review list is to be ordered: by rating or by datePosted. */
  datatype Ordering = Ordering(byRating: bool, ascending: bool)

  /** The ordering listReviews applies: only the first sort order counts;
      "rating" sorts by rating and any other property by datePosted; with no
      sort, datePosted descending. */
  function OrderingOf(sort: seq<SortOrder>): (ordering: Ordering)
    ensures sort == [] ==> ordering == Ordering(false, false)
    ensures sort != [] ==> ordering.ascending == sort[0].ascending
    ensures sort != [] ==> (ordering.byRating <==> sort[0].property == "rating")
  {
    if sort == [] then Ordering(false, false)
    else Ordering(sort[0].property == "rating", sort[0].ascending)
  }

  function SortKey(review: Review, byRating: bool): int
  {
    if byRating then review.rating else review.datePosted
  }

  /** The comparator's key: `Comparator.comparing(key)` orders by the key,
      its `reversed()` by the key's negation. */
  function Rank(review: Review, ordering: Ordering): int
  {
    if ordering.ascending then SortKey(review, ordering.byRating) else -SortKey(review, ordering.byRating)
  }

  /** The comparator lets `a` stay before `b`. */
  predicate Precedes(a: Review, b: Review, ordering: Ordering)
  {
    Rank(a, ordering) <= Rank(b, ordering)
  }

  ghost predicate SortedBy(reviews: seq<Review>, ordering: Ordering)
  {
    forall i, j :: 0 <= i < j < |reviews| ==> Precedes(reviews[i], reviews[j], ordering)
  }

  /** Puts `x` before the first review it precedes, so after every review
      that must stay ahead of it. */
  function Insert(x: Review, sorted: seq<Review>, ordering: Ordering): (result: seq<Review>)
    ensures multiset(result) == multiset(sorted) + multiset{x}
  {
    if sorted == [] || Precedes(x, sorted[0], ordering) then [x] + sorted
    else
      assert sorted == [sorted[0]] + sorted[1..];
      [sorted[0]] + Insert(x, sorted[1..], ordering)
  }

  lemma {:induction false} InsertSorted(x: Review, sorted: seq<Review>, ordering: Ordering)
    requires SortedBy(sorted, ordering)
    ensures SortedBy(Insert(x, sorted, ordering), ordering)
  {
    if sorted != [] && !Precedes(x, sorted[0], ordering) {
      var rest := Insert(x, sorted[1..], ordering);
      InsertSorted(x, sorted[1..], ordering);
      forall k | 0 <= k < |rest| ensures Precedes(sorted[0], rest[k], ordering) {
        assert rest[k] in multiset(rest);
        if rest[k] != x {
          assert rest[k] in multiset(sorted[1..]);
          var m :| 0 <= m < |sorted[1..]| && sorted[1..][m] == rest[k];
          assert sorted[m + 1] == rest[k];
        }
      }
      assert Insert(x, sorted, ordering) == [sorted[0]] + rest;
    }
  }

  /** The stored list after `reviews.sort(comparator)`: a permutation of the
      input in comparator order. */
  function Sorted(reviews: seq<Review>, ordering: Ordering): (result: seq<Review>)
    ensures multiset(result) == multiset(reviews)
    ensures SortedBy(result, ordering)
  {
    if reviews == [] then []
    else
      assert reviews == [reviews[0]] + reviews[1..];
      var rest := Sorted(reviews[1..], ordering);
      InsertSorted(reviews[0], rest, ordering);
      Insert(reviews[0], rest, ordering)
  }

  /** In ascending order keys never decrease; in descending order they never
      increase. */
  lemma SortedKeys(reviews: seq<Review>, ordering: Ordering, i: nat, j: nat)
    requires i <= j < |Sorted(reviews, ordering)|
    ensures ordering.ascending ==>
      SortKey(Sorted(reviews, ordering)[i], ordering.byRating) <= SortKey(Sorted(reviews, ordering)[j], ordering.byRating)
    ensures !ordering.ascending ==>
      SortKey(Sorted(reviews, ordering)[i], ordering.byRating) >= SortKey(Sorted(reviews, ordering)[j], ordering.byRating)
  {
  }

  function Min(a: int, b: int): int { if a <= b then a else b }

  /** The page listReviews returns: empty from the end of the list on,
      otherwise [offset, min(offset + pageSize, size)). */
  function PageOf(reviews: seq<Review>, offset: nat, pageSize: nat): (page: seq<Review>)
    ensures offset >= |reviews| ==> page == []
    ensures offset < |reviews| ==> |page| == Min(pageSize, |reviews| - offset)
    ensures forall i :: 0 <= i < |page| ==> page[i] == reviews[offset + i]
  {
    if offset >= |reviews| then [] else reviews[offset..Min(offset + pageSize, |reviews|)]
  }

  /** Two consecutive pages together are the page of their combined size. */
  lemma PagesConcatenate(reviews: seq<Review>, offset: nat, first: nat, second: nat)
    ensures PageOf(reviews, offset, first) + PageOf(reviews, offset + first, second)
         == PageOf(reviews, offset, first + second)
  {
    var joined := PageOf(reviews, offset, first) + PageOf(reviews, offset + first, second);
    var whole := PageOf(reviews, offset, first + second);
    assert |joined| == |whole|;
    forall i | 0 <= i < |joined| ensures joined[i] == whole[i] {
      if i >= |PageOf(reviews, offset, first)| {
        assert joined[i] == PageOf(reviews, offset + first, second)[i - |PageOf(reviews, offset, first)|];
      }
    }
  }

  /** 25 reviews, 20 per page: the second page (offset 20) holds the last 5,
      and offset 30 gives an empty page. */
  lemma PageExamples(reviews: seq<Review>)
    requires |reviews| == 25
    ensures PageOf(reviews, 20, 20) == reviews[20..]
    ensures |PageOf(reviews, 20, 20)| == 5
    ensures PageOf(reviews, 30, 20) == []
  {
  }
}
