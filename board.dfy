/**
 * The page state behind station finding: the directory whose entries the
 * locate callbacks update in place, the desktop station cards (one per
 * directory slot, written by index) and the mobile station list.
 */
module Board {
  import opened Wrappers
  import opened Stations
  import opened Ranking
  import opened Labels

  class StationBoard {
    /** The `stations` array: fixed entries, `distance` overwritten in place. */
    const stations: array<Station>
    /** The distance line of each `.station-card`; `None` is the page's initial text. */
    const cards: array<Option<CardText>>
    /** The children of the mobile `#stationList`. */
    var list: seq<ListItem>

    ghost predicate Valid()
      reads this, stations
    {
      cards.Length == stations.Length && UniqueNames(stations[..])
    }

    constructor ()
      ensures Valid() && fresh(stations) && fresh(cards)
      ensures stations[..] == Directory()
      ensures forall j :: 0 <= j < cards.Length ==> cards[j] == None
      ensures list == []
    {
      var d := Directory();
      var a := new Station[4](i requires 0 <= i < 4 => d[i]);
      assert a[..] == d;
      stations := a;
      cards := new Option<CardText>[4](_ => None);
      list := [];
    }

    /**
     * The success callback's ranking step: measure every entry in place,
     * then sort a copy; the directory keeps its own order.
     */
    method Locate(user: GeoPoint, distance: DistanceFn) returns (ranked: seq<Station>)
      requires Valid()
      modifies stations
      ensures Valid()
      ensures stations[..] == WithDistances(old(stations[..]), user, distance)
      ensures ranked == SortByDistance(stations[..])
    {
      AssignDistances(stations, user, distance);
      ranked := SortByDistance(stations[..]);
    }

    /** `displayStationList`: clears the list, then appends one item per ranked entry. */
    method DisplayStationList(ranked: seq<Station>)
      modifies this`list
      ensures list == StationItems(ranked)
    {
      list := [];
      var i := 0;
      while i < |ranked|
        invariant 0 <= i <= |ranked|
        invariant |list| == i
        invariant forall k :: 0 <= k < i ==> list[k] == StationItem(ranked[k], k)
      {
        list := list + [StationItem(ranked[i], i)];
        i := i + 1;
      }
    }

    /**
     * `updateDesktopStationList`: each ranked entry writes the card at its
     * directory slot, found by name. The page throws if a name is missing,
     * hence the precondition.
     */
    method UpdateDesktopStationList(ranked: seq<Station>)
      requires Valid() && AllFound(stations[..], ranked)
      modifies cards
      ensures cards[..] == DesktopCards(stations[..], ranked, old(cards[..]), |ranked|)
      ensures multiset(ranked) == multiset(stations[..]) ==>
        && |ranked| == cards.Length
        && forall j :: 0 <= j < cards.Length ==>
             cards[j] == Some(CardText(FormatDistance(Key(stations[j])), stations[j] == ranked[0]))
    {
      var dir := stations[..];
      ghost var before := cards[..];
      var i := 0;
      while i < |ranked|
        invariant 0 <= i <= |ranked|
        invariant cards[..] == DesktopCards(dir, ranked, before, i)
      {
        var slot := FindIndex(dir, ranked[i].name);
        ghost var prev := cards[..];
        cards[slot] := Some(CardFor(ranked[i], i));
        assert cards[..] == prev[slot := Some(CardFor(ranked[i], i))];
        i := i + 1;
      }
      if multiset(ranked) == multiset(dir) {
        assert |ranked| == |multiset(ranked)| == |multiset(dir)| == |dir|;
        DesktopCardsLabelled(dir, ranked, before);
        forall j | 0 <= j < cards.Length
          ensures cards[j] == Some(CardText(FormatDistance(Key(dir[j])), dir[j] == ranked[0]))
        {
          assert cards[j] == cards[..][j];
        }
      }
    }

    /**
     * `locateUserMobile`: `None` stands for an absent geolocation service
     * or a failed request, which only raise an alert.
     */
    method LocateUserMobile(position: Option<GeoPoint>, distance: DistanceFn)
      requires Valid()
      modifies stations, this`list
      ensures Valid()
      ensures position.None? ==> stations[..] == old(stations[..]) && list == old(list)
      ensures position.Some? ==>
        && stations[..] == WithDistances(old(stations[..]), position.value, distance)
        && list == StationItems(SortByDistance(stations[..]))
    {
      if position.Some? {
        var ranked := Locate(position.value, distance);
        DisplayStationList(ranked);
      }
    }

    /** `locateUserDesktop`: every card ends up showing its own station's distance. */
    method LocateUserDesktop(position: Option<GeoPoint>, distance: DistanceFn)
      requires Valid()
      modifies stations, cards
      ensures Valid()
      ensures position.None? ==> stations[..] == old(stations[..]) && cards[..] == old(cards[..])
      ensures position.Some? ==>
        && stations[..] == WithDistances(old(stations[..]), position.value, distance)
        && forall j :: 0 <= j < cards.Length ==>
             cards[j] == Some(CardText(FormatDistance(Key(stations[j])),
                                       stations[j] == SortByDistance(stations[..])[0]))
    {
      if position.Some? {
        var ranked := Locate(position.value, distance);
        SortPermutes(stations[..]);
        RankedMapsBack(stations[..], ranked);
        UpdateDesktopStationList(ranked);
      }
    }
  }
}
