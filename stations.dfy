/**
 * The station directory: a fixed list of charging stations whose `distance`
 * field is overwritten every time the user is located.
 */
module Stations {
  import opened Wrappers

  /** A position reported by the browser's geolocation service. */
  datatype GeoPoint = GeoPoint(lat: real, lng: real)

  /** One directory entry; `distance` is `null` until the first locate. */
  datatype Station = Station(name: string, lat: real, lng: real, distance: Option<real>)

  /**
   * `calculateDistance(lat1, lng1, lat2, lng2)`: the haversine distance in
   * meters. Its floating-point arithmetic is not part of this model; every
   * operation that needs it takes it as a parameter.
   */
  type DistanceFn = (real, real, real, real) -> real

  predicate UniqueNames(s: seq<Station>) {
    forall i, j :: 0 <= i < j < |s| ==> s[i].name != s[j].name
  }

  /** The four campus stations, in directory order, none of them located yet. */
  function Directory(): (d: seq<Station>)
    ensures |d| == 4 && UniqueNames(d)
    ensures forall i :: 0 <= i < |d| ==> d[i].distance == None
    ensures d[0].name == "School Canteen"
  {
    [ Station("School Canteen", 12.667599141285237, 123.88106065789424, None),
      Station("Library", 12.667828642353323, 123.88142728340732, None),
      Station("ICT Building", 12.667455809209827, 123.8816142627787, None),
      Station("CCB Building", 12.66732476935383, 123.8822385087018, None) ]
  }

  /**
   * The value the page compares and displays as a station's distance.
   * JavaScript turns `null` into 0 both in the sort comparator's
   * subtraction and in the `< 1000` test, so an unlocated station reads as 0.
   */
  function Key(st: Station): real {
    match st.distance
    case Some(d) => d
    case None => 0.0
  }

  /** One step of the `forEach` that assigns `station.distance`. */
  function Measured(st: Station, user: GeoPoint, distance: DistanceFn): (m: Station)
    ensures m.name == st.name && m.lat == st.lat && m.lng == st.lng
    ensures m.distance == Some(distance(user.lat, user.lng, st.lat, st.lng))
  {
    st.(distance := Some(distance(user.lat, user.lng, st.lat, st.lng)))
  }

  /**
   * The directory after every entry has been measured from `user`: same
   * stations, same order, each with a distance.
   */
  function WithDistances(s: seq<Station>, user: GeoPoint, distance: DistanceFn): (r: seq<Station>)
    ensures |r| == |s|
    ensures forall i :: 0 <= i < |s| ==>
      r[i].name == s[i].name && r[i].lat == s[i].lat && r[i].lng == s[i].lng && r[i].distance.Some?
    ensures forall i :: 0 <= i < |s| ==> Key(r[i]) == distance(user.lat, user.lng, s[i].lat, s[i].lng)
    ensures UniqueNames(s) ==> UniqueNames(r)
  {
    seq(|s|, i requires 0 <= i < |s| => Measured(s[i], user, distance))
  }

  /**
   * The in-place `forEach` of the locate callbacks: overwrites the distance
   * of every entry of `stations`, leaving the order untouched.
   */
  method AssignDistances(stations: array<Station>, user: GeoPoint, distance: DistanceFn)
    modifies stations
    ensures stations[..] == WithDistances(old(stations[..]), user, distance)
  {
    var i := 0;
    while i < stations.Length
      invariant 0 <= i <= stations.Length
      invariant forall k :: 0 <= k < i ==> stations[k] == Measured(old(stations[k]), user, distance)
      invariant forall k :: i <= k < stations.Length ==> stations[k] == old(stations[k])
    {
      stations[i] := Measured(stations[i], user, distance);
      i := i + 1;
    }
  }
}
