/** Rows of the three tables the matchmaking core reads and writes
    (UserProfiles, Likes, Reports), and the values derived from them. */
module Types {

  datatype Option<+T> = None | Some(value: T)

  /** Store or pop the entry of a per-user state dictionary (`user_states`, `complaint_states`). */
  function Put<V>(m: map<UserId, V>, u: UserId, entry: Option<V>): map<UserId, V> {
    match entry
    case None => m - {u}
    case Some(s) => m[u := s]
  }

  /** A Telegram user identity (the UserId column of every table). */
  type UserId = int

  /** One row of UserProfiles. Latitude and Longitude are nullable REAL columns. */
  datatype Profile = Profile(
    userId: UserId,
    petName: string,
    age: int,
    breed: string,
    about: string,
    photo: Option<string>,
    link: Option<string>,
    latitude: Option<real>,
    longitude: Option<real>,
    chatId: int)

  /** A geographic point handed to the distance function. */
  datatype LatLon = LatLon(lat: real, lon: real)

  /** Distances are computed by an external geodesic routine; the model takes it as a parameter. */
  type DistanceFn = (LatLon, LatLon) -> real

  /** A coordinate counts only when it is truthy: present and different from 0.0. */
  predicate Truthy(x: Option<real>) {
    x.Some? && x.value != 0.0
  }

  /** A profile has a usable location when both coordinates are truthy. */
  predicate Located(p: Profile) {
    Truthy(p.latitude) && Truthy(p.longitude)
  }

  function Position(p: Profile): LatLon
    requires Located(p)
  {
    LatLon(p.latitude.value, p.longitude.value)
  }

  /** The State column of Likes. */
  datatype LikeState = Like | Dislike | MutualLike

  /** One row of Likes: UserId reacted to ViewedId. */
  datatype LikeRow = LikeRow(userId: UserId, viewedId: UserId, state: LikeState, viewedByUser: bool)

  /** One row of Reports. */
  datatype Report = Report(userId: UserId, reportedId: UserId, description: Option<string>)

  /** A candidate card: the profile and its distance in kilometres from the requester. */
  datatype Candidate = Candidate(profile: Profile, distance: real)
}
