/** RestaurantServiceImpl: creating, loading and updating restaurant records.
    The search dispatch is the pure function Search.SelectQuery. */
module RestaurantService {
  import opened Domain
  import opened Entities

  /** The stored search point built from the geocoder's answer. */
  function ToGeoPoint(located: GeoLocation): (point: GeoPoint)
    ensures point.lat == located.latitude && point.lon == located.longitude
  {
    GeoPoint(located.latitude, located.longitude)
  }

  class RestaurantServiceImpl {
    const repository: RestaurantRepository

    constructor (repository: RestaurantRepository)
      ensures this.repository == repository
    {
      this.repository := repository;
    }

    /** createRestaurant. `located` is the geocoder's answer for the request's
        address, `newId` the id the store assigns, `now` the clock. */
    method CreateRestaurant(request: RestaurantRequest, located: GeoLocation, newId: Id,
                            now: Timestamp) returns (saved: RestaurantDoc)
      requires repository.Valid()
      requires newId !in repository.store
      modifies repository
      ensures repository.Valid()
      ensures saved.id == newId && saved.name == request.name && saved.cuisineType == request.cuisineType
      ensures saved.contactInformation == request.contactInformation && saved.address == request.address
      ensures saved.geoLocation == ToGeoPoint(located) && saved.operatingHours == request.operatingHours
      ensures saved.averageRating == 0.0 && saved.reviews == []
      ensures saved.photos == PhotosFrom(request.photoIds, now)
      ensures repository.store == old(repository.store)[newId := saved]
    {
      var geoPoint := ToGeoPoint(located);
      var photos := PhotosFrom(request.photoIds, now);
      var restaurant := new Restaurant.FromDoc(RestaurantDoc(
        newId, request.name, request.cuisineType, request.contactInformation, request.address,
        geoPoint, request.operatingHours, 0.0, photos, []));
      saved := repository.Save(restaurant);
    }

    /** getRestaurant. */
    method GetRestaurant(id: Id) returns (found: Option<Restaurant>)
      ensures found.Some? <==> id in repository.store
      ensures found.Some? ==> fresh(found.value) && found.value.Snapshot() == repository.store[id]
    {
      found := repository.FindById(id);
    }

    /** updateRestaurant: overwrites the described fields of an existing record;
        its reviews and average rating stay as they were. */
    method UpdateRestaurant(id: Id, request: RestaurantRequest, located: GeoLocation,
                            now: Timestamp) returns (result: Result<RestaurantDoc>)
      requires repository.Valid()
      modifies repository
      ensures repository.Valid()
      ensures id !in old(repository.store) ==>
        result == Err(RestaurantNotFound(id)) && repository.store == old(repository.store)
      ensures id in old(repository.store) ==>
        var before := old(repository.store)[id];
        && result.Ok?
        && result.value == before.(name := request.name,
                                   cuisineType := request.cuisineType,
                                   contactInformation := request.contactInformation,
                                   address := request.address,
                                   geoLocation := ToGeoPoint(located),
                                   operatingHours := request.operatingHours,
                                   photos := PhotosFrom(request.photoIds, now))
        && result.value.reviews == before.reviews
        && result.value.averageRating == before.averageRating
        && repository.store == old(repository.store)[id := result.value]
    {
      var found := GetRestaurant(id);
      if found.None? {
        return Err(RestaurantNotFound(id));
      }
      var restaurant := found.value;
      var geoPoint := ToGeoPoint(located);
      var photos := PhotosFrom(request.photoIds, now);
      restaurant.Overwrite(request, geoPoint, photos);
      var saved := repository.Save(restaurant);
      return Ok(saved);
    }

    /** deleteRestaurant: removes the record, its embedded reviews with it; an
        unknown id is not an error. */
    method DeleteRestaurant(id: Id)
      requires repository.Valid()
      modifies repository
      ensures repository.Valid()
      ensures repository.store == old(repository.store) - {id}
    {
      repository.DeleteById(id);
    }
  }
}
