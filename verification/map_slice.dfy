/** The map slice of the store (`src/store/slices/mapSlice.ts`): the
    visible region, the nearby users and products, and the lifecycle of the
    nearby-data request. */
module MapSlice {
  import opened Wrappers

  datatype Region = Region(latitude: real, longitude: real, latitudeDelta: real, longitudeDelta: real)

  datatype NearbyUser = NearbyUser(
    id: string, username: string, latitude: real, longitude: real, distance: real, profileImage: Option<string>)

  datatype NearbyProduct = NearbyProduct(
    id: string, name: string, price: real, latitude: real, longitude: real, distance: real, imageUrl: Option<string>)

  datatype MapState = MapState(
    region: Option<Region>,
    nearbyUsers: seq<NearbyUser>,
    nearbyProducts: seq<NearbyProduct>,
    isLoading: bool,
    error: Option<string>)

  const InitialMapState := MapState(None, [], [], false, None)

  datatype FetchParams = FetchParams(latitude: real, longitude: real, radius: real)

  datatype NearbyData = NearbyData(users: seq<NearbyUser>, products: seq<NearbyProduct>)

  datatype MapAction =
    | SetMapRegion(region: Region)
    | ClearMapError
    | ResetMapState
    | FetchPending
    | FetchFulfilled(data: NearbyData)
    | FetchRejected(message: Option<string>)

  const FetchFailedMessage := "Failed to fetch nearby data"

  /** The reducer. Only `setMapRegion` and reset move the region; only a
      fulfilled fetch and reset move the lists; `clearMapError` touches the
      error alone; a rejection always leaves a non-empty error behind when
      the default applies. */
  function Reduce(s: MapState, a: MapAction): (r: MapState)
    ensures r.region != s.region ==> a.SetMapRegion? || a == ResetMapState
    ensures a.SetMapRegion? ==> r == s.(region := Some(a.region))
    ensures (r.nearbyUsers != s.nearbyUsers || r.nearbyProducts != s.nearbyProducts) ==>
      a.FetchFulfilled? || a == ResetMapState
    ensures a == ClearMapError ==> r == s.(error := None)
    ensures a == ResetMapState ==> r == InitialMapState
    ensures a == FetchPending ==> r.isLoading && r.error.None? && r.region == s.region
    ensures a.FetchFulfilled? ==>
      && !r.isLoading && r.nearbyUsers == a.data.users && r.nearbyProducts == a.data.products
      && r.error == s.error
    ensures a.FetchRejected? ==>
      && !r.isLoading && r.nearbyUsers == s.nearbyUsers && r.nearbyProducts == s.nearbyProducts
      && r.error.Some?
      && (a.message.Some? && a.message.value != [] ==> r.error.value == a.message.value)
      && (a.message.None? || a.message.value == [] ==> r.error.value == FetchFailedMessage)
  {
    match a
    case SetMapRegion(region) => s.(region := Some(region))
    case ClearMapError => s.(error := None)
    case ResetMapState => InitialMapState
    case FetchPending => s.(isLoading := true, error := None)
    case FetchFulfilled(data) => s.(isLoading := false, nearbyUsers := data.users, nearbyProducts := data.products)
    case FetchRejected(message) =>
      var text := if message.Some? && message.value != [] then message.value else FetchFailedMessage;
      s.(isLoading := false, error := Some(text))
  }

  /** `fetchNearbyData` as it stands answers with two empty lists,
      whatever it is asked. */
  function FetchNearbyData(params: FetchParams): (d: NearbyData)
    ensures d.users == [] && d.products == []
  {
    NearbyData([], [])
  }

  /** A whole fetch, pending then fulfilled: loading ends, the error is
      cleared, both lists are empty and the region is kept. */
  lemma FetchClearsLists(s: MapState, params: FetchParams)
    ensures var r := Reduce(Reduce(s, FetchPending), FetchFulfilled(FetchNearbyData(params)));
      r == s.(isLoading := false, error := None, nearbyUsers := [], nearbyProducts := [])
  {
  }

  /** Clearing the error twice is clearing it once, and clearing it does
      not disturb an in-flight fetch. */
  lemma ClearMapErrorIdempotent(s: MapState)
    ensures Reduce(Reduce(s, ClearMapError), ClearMapError) == Reduce(s, ClearMapError)
    ensures Reduce(s, ClearMapError).isLoading == s.isLoading
  {
  }
}
