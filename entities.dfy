/** The restaurant entity the services load, change through its setters and
    save, and the repository that stores restaurant records by id. */
module Entities {
  import opened Domain
  import opened Rating
  import opened ReviewLists
  import opened ReviewPaging

  /** The rules every stored restaurant record keeps: its average rating is
      the mean of its reviews, review ids are distinct, and no author has two
      reviews. */
  ghost predicate Consistent(doc: RestaurantDoc)
  {
    && doc.averageRating == AverageRating(doc.reviews)
    && ReviewIdsUnique(doc.reviews)
    && OneReviewPerAuthor(doc.reviews)
  }

  /** Every record is filed under its own id and is consistent. */
  ghost predicate ValidStore(store: map<Id, RestaurantDoc>)
  {
    forall id :: id in store ==> store[id].id == id && Consistent(store[id])
  }

  lemma StorePut(store: map<Id, RestaurantDoc>, doc: RestaurantDoc)
    requires ValidStore(store) && Consistent(doc)
    ensures ValidStore(store[doc.id := doc])
  {
  }

  /** A loaded restaurant record, changed in place before it is saved. */
  class Restaurant {
    var id: Id
    var name: string
    var cuisineType: string
    var contactInformation: string
    var address: Address
    var geoLocation: GeoPoint
    var operatingHours: OperatingHours
    var averageRating: real
    var photos: seq<Photo>
    var reviews: seq<Review>

    /** The record as the store would hold it. */
    function Snapshot(): RestaurantDoc
      reads this
    {
      RestaurantDoc(id, name, cuisineType, contactInformation, address, geoLocation,
                    operatingHours, averageRating, photos, reviews)
    }

    constructor FromDoc(doc: RestaurantDoc)
      ensures Snapshot() == doc
    {
      id := doc.id;
      name := doc.name;
      cuisineType := doc.cuisineType;
      contactInformation := doc.contactInformation;
      address := doc.address;
      geoLocation := doc.geoLocation;
      operatingHours := doc.operatingHours;
      averageRating := doc.averageRating;
      photos := doc.photos;
      reviews := doc.reviews;
    }

    /** `getReviews().add(review)`: appends at the end, nothing else changes. */
    method AddReview(review: Review)
      modifies this
      ensures Snapshot() == old(Snapshot()).(reviews := old(reviews) + [review])
    {
      reviews := reviews + [review];
    }

    method SetReviews(updated: seq<Review>)
      modifies this
      ensures Snapshot() == old(Snapshot()).(reviews := updated)
    {
      reviews := updated;
    }

    /** updateRestaurantAverageRating: stores 0 for no reviews, else the mean. */
    method UpdateAverageRating()
      modifies this
      ensures Snapshot() == old(Snapshot()).(averageRating := AverageRating(reviews))
    {
      if |reviews| == 0 {
        averageRating := 0.0;
      } else {
        averageRating := RatingSum(reviews) as real / (|reviews| as real);
      }
    }

    /** `reviews.sort(comparator)`: reorders the reviews in place. */
    method SortReviews(ordering: Ordering)
      modifies this
      ensures Snapshot() == old(Snapshot()).(reviews := Sorted(old(reviews), ordering))
      ensures multiset(reviews) == multiset(old(reviews))
      ensures SortedBy(reviews, ordering)
    {
      reviews := Sorted(reviews, ordering);
    }

    /** The setters of updateRestaurant: every field a request describes is
        overwritten; id, reviews and averageRating are left as they were. */
    method Overwrite(request: RestaurantRequest, geoPoint: GeoPoint, newPhotos: seq<Photo>)
      modifies this
      ensures Snapshot() == old(Snapshot()).(name := request.name,
                                             cuisineType := request.cuisineType,
                                             contactInformation := request.contactInformation,
                                             address := request.address,
                                             geoLocation := geoPoint,
                                             operatingHours := request.operatingHours,
                                             photos := newPhotos)
    {
      name := request.name;
      cuisineType := request.cuisineType;
      contactInformation := request.contactInformation;
      address := request.address;
      geoLocation := geoPoint;
      operatingHours := request.operatingHours;
      photos := newPhotos;
    }
  }

  /** The document store: one record per restaurant id. Every lookup hands out
      a freshly materialised entity; saving replaces the whole record. */
  class RestaurantRepository {
    var store: map<Id, RestaurantDoc>

    ghost predicate Valid()
      reads this
    {
      ValidStore(store)
    }

    constructor ()
      ensures store == map[] && Valid()
    {
      store := map[];
    }

    method FindById(id: Id) returns (found: Option<Restaurant>)
      ensures found.Some? <==> id in store
      ensures found.Some? ==> fresh(found.value) && found.value.Snapshot() == store[id]
    {
      if id in store {
        var restaurant := new Restaurant.FromDoc(store[id]);
        found := Some(restaurant);
      } else {
        found := None;
      }
    }

    /** Stores the record under its id and returns what was stored. */
    method Save(restaurant: Restaurant) returns (saved: RestaurantDoc)
      modifies this
      ensures saved == restaurant.Snapshot()
      ensures store == old(store)[restaurant.id := saved]
    {
      saved := restaurant.Snapshot();
      store := store[restaurant.id := saved];
    }

    /** Removes the record with that id, if there is one; other ids are kept. */
    method DeleteById(id: Id)
      modifies this
      ensures store == old(store) - {id}
      ensures id !in store
      ensures forall other :: other != id ==> (other in store <==> other in old(store))
    {
      store := store - {id};
    }
  }
}
