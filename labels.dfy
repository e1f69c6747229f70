/**
 * What the two station views display for a ranked list: the mobile list
 * (`displayStationList`) and the desktop cards (`updateDesktopStationList`).
 * The digits themselves (`Math.round`, `toFixed(2)`) are not modelled; only
 * the unit chosen, the amount before rounding and the " (Nearest)" suffix.
 */
module Labels {
  import opened Wrappers
  import opened Stations

  datatype Unit = Meters | Kilometers

  /** A distance as rendered: the unit and the amount in that unit. */
  datatype DistanceText = DistanceText(unit: Unit, amount: real)

  /** Reads a rendered distance back in meters. */
  function InMeters(t: DistanceText): real {
    match t.unit
    case Meters => t.amount
    case Kilometers => t.amount * 1000.0
  }

  /** Below 1000 meters the distance is shown in meters, otherwise in km. */
  function FormatDistance(d: real): (t: DistanceText)
    ensures t.unit == Meters <==> d < 1000.0
    ensures InMeters(t) == d
    ensures t.unit == Kilometers ==> t.amount >= 1.0
  {
    if d < 1000.0 then DistanceText(Meters, d) else DistanceText(Kilometers, d / 1000.0)
  }

  /** One entry of the mobile station list. */
  datatype ListItem = ListItem(name: string, text: DistanceText, nearest: bool)

  function StationItem(st: Station, rank: nat): ListItem {
    ListItem(st.name, FormatDistance(Key(st)), rank == 0)
  }

  /** The mobile list for a ranked list: one item per entry, in rank order. */
  function StationItems(r: seq<Station>): (items: seq<ListItem>)
    ensures |items| == |r|
    ensures forall i :: 0 <= i < |r| ==>
      items[i].name == r[i].name && InMeters(items[i].text) == Key(r[i])
    ensures forall i :: 0 <= i < |r| ==> (items[i].text.unit == Meters <==> Key(r[i]) < 1000.0)
    ensures forall i :: 0 <= i < |r| ==> (items[i].nearest <==> i == 0)
  {
    seq(|r|, i requires 0 <= i < |r| => StationItem(r[i], i))
  }

  /** Only one item of the list is labelled nearest, and only if there is one. */
  lemma OnlyFirstItemNearest(r: seq<Station>)
    ensures forall i, j :: 0 <= i < j < |r| ==> !(StationItems(r)[i].nearest && StationItems(r)[j].nearest)
    ensures (exists i :: 0 <= i < |r| && StationItems(r)[i].nearest) <==> r != []
  {
    if r != [] {
      assert StationItems(r)[0].nearest;
    }
  }

  /** `stations.findIndex(s => s.name === name)`: the first slot with that name, or -1. */
  function FindIndex(dir: seq<Station>, name: string): (i: int)
    ensures -1 <= i < |dir|
    ensures i >= 0 ==> dir[i].name == name && forall j :: 0 <= j < i ==> dir[j].name != name
    ensures i == -1 ==> forall j :: 0 <= j < |dir| ==> dir[j].name != name
  {
    if dir == [] then -1
    else if dir[0].name == name then 0
    else
      var k := FindIndex(dir[1..], name);
      if k == -1 then -1 else k + 1
  }

  /** The text a desktop card's distance element receives. */
  datatype CardText = CardText(text: DistanceText, nearest: bool)

  function CardFor(st: Station, rank: nat): CardText {
    CardText(FormatDistance(Key(st)), rank == 0)
  }

  /** Every ranked name is found in the directory (otherwise the page throws). */
  predicate AllFound(dir: seq<Station>, r: seq<Station>) {
    forall k :: 0 <= k < |r| ==> FindIndex(dir, r[k].name) >= 0
  }

  /**
   * The desktop cards after the first `n` iterations of the loop over the
   * ranked list: iteration k writes card `findIndex(r[k].name)`.
   */
  function DesktopCards(dir: seq<Station>, r: seq<Station>, cards: seq<Option<CardText>>, n: nat): (c: seq<Option<CardText>>)
    requires n <= |r| && AllFound(dir, r) && |cards| == |dir|
    ensures |c| == |cards|
  {
    if n == 0 then cards
    else DesktopCards(dir, r, cards, n - 1)[FindIndex(dir, r[n - 1].name) := Some(CardFor(r[n - 1], n - 1))]
  }

  lemma CountTwice(s: seq<Station>, i: int, j: int)
    requires 0 <= i < j < |s| && s[i] == s[j]
    ensures multiset(s)[s[i]] >= 2
  {
    assert s == s[..i] + [s[i]] + s[i + 1..j] + [s[j]] + s[j + 1..];
  }

  lemma CountOnce(dir: seq<Station>, a: int)
    requires UniqueNames(dir) && 0 <= a < |dir|
    ensures multiset(dir)[dir[a]] == 1
  {
    assert dir == dir[..a] + [dir[a]] + dir[a + 1..];
    assert dir[a] !in dir[..a];
    assert dir[a] !in dir[a + 1..] by {
      forall m | a + 1 <= m < |dir| ensures dir[m] != dir[a] {
        assert dir[m].name != dir[a].name;
      }
    }
  }

  lemma FindsOwnSlot(dir: seq<Station>, a: int)
    requires UniqueNames(dir) && 0 <= a < |dir|
    ensures FindIndex(dir, dir[a].name) == a
  {
  }

  /** A permutation of a directory with unique names has unique names. */
  lemma PermutationKeepsNamesUnique(dir: seq<Station>, r: seq<Station>)
    requires UniqueNames(dir) && multiset(r) == multiset(dir)
    ensures UniqueNames(r)
  {
    forall k1, k2 | 0 <= k1 < k2 < |r| ensures r[k1].name != r[k2].name {
      if r[k1].name == r[k2].name {
        assert r[k1] in multiset(dir) && r[k2] in multiset(dir);
        var a :| 0 <= a < |dir| && dir[a] == r[k1];
        var b :| 0 <= b < |dir| && dir[b] == r[k2];
        assert a == b;
        CountTwice(r, k1, k2);
        CountOnce(dir, a);
        assert false;
      }
    }
  }

  /** A ranked station found by name is found at a slot holding that same station. */
  lemma MapsToOwnSlot(dir: seq<Station>, r: seq<Station>, k: int)
    requires UniqueNames(dir) && multiset(r) == multiset(dir) && 0 <= k < |r|
    ensures 0 <= FindIndex(dir, r[k].name) && r[k] == dir[FindIndex(dir, r[k].name)]
  {
    assert r[k] in multiset(dir);
    var a :| 0 <= a < |dir| && dir[a] == r[k];
    FindsOwnSlot(dir, a);
  }

  /** Every directory slot is the one found for some ranked station. */
  lemma SlotIsHit(dir: seq<Station>, r: seq<Station>, j: int)
    requires UniqueNames(dir) && multiset(r) == multiset(dir) && 0 <= j < |dir|
    ensures exists k :: 0 <= k < |r| && r[k] == dir[j] && FindIndex(dir, r[k].name) == j
  {
    assert dir[j] in multiset(r);
    var k :| 0 <= k < |r| && r[k] == dir[j];
    FindsOwnSlot(dir, j);
  }

  /**
   * When directory names are unique and the ranked list is a permutation of
   * the directory, every ranked station is found by name, at the slot that
   * holds that very station.
   */
  lemma RankedMapsBack(dir: seq<Station>, r: seq<Station>)
    requires UniqueNames(dir) && multiset(r) == multiset(dir)
    ensures |r| == |dir| && AllFound(dir, r)
    ensures forall k :: 0 <= k < |r| ==> r[k] == dir[FindIndex(dir, r[k].name)]
  {
    assert |r| == |multiset(r)| == |multiset(dir)| == |dir|;
    forall k | 0 <= k < |r| ensures FindIndex(dir, r[k].name) >= 0 && r[k] == dir[FindIndex(dir, r[k].name)] {
      MapsToOwnSlot(dir, r, k);
    }
  }

  /** Two different ranked stations are found at two different slots. */
  lemma DistinctSlots(dir: seq<Station>, r: seq<Station>, k1: int, k2: int)
    requires UniqueNames(dir) && multiset(r) == multiset(dir) && 0 <= k1 < k2 < |r|
    ensures FindIndex(dir, r[k1].name) != FindIndex(dir, r[k2].name)
  {
    PermutationKeepsNamesUnique(dir, r);
    MapsToOwnSlot(dir, r, k1);
    MapsToOwnSlot(dir, r, k2);
    assert r[k1].name != r[k2].name;
  }

  /**
   * Each card is written exactly once: every slot is found for some ranked
   * station, and no two ranked stations are found at the same slot.
   */
  lemma EachCardWrittenOnce(dir: seq<Station>, r: seq<Station>)
    requires UniqueNames(dir) && multiset(r) == multiset(dir)
    ensures forall j :: 0 <= j < |dir| ==>
      exists k :: 0 <= k < |r| && r[k] == dir[j] && FindIndex(dir, r[k].name) == j
    ensures forall k1, k2 :: 0 <= k1 < k2 < |r| ==> FindIndex(dir, r[k1].name) != FindIndex(dir, r[k2].name)
  {
    forall j | 0 <= j < |dir| ensures exists k :: 0 <= k < |r| && r[k] == dir[j] && FindIndex(dir, r[k].name) == j {
      SlotIsHit(dir, r, j);
    }
    forall k1, k2 | 0 <= k1 < k2 < |r| ensures FindIndex(dir, r[k1].name) != FindIndex(dir, r[k2].name) {
      DistinctSlots(dir, r, k1, k2);
    }
  }

  lemma PrefixGrows(r: seq<Station>, n: int, x: Station)
    requires 0 < n <= |r|
    ensures (x in r[..n]) == (x in r[..n - 1] || x == r[n - 1])
  {
    assert r[..n] == r[..n - 1] + [r[n - 1]];
  }

  lemma WholePrefix(r: seq<Station>, x: Station)
    ensures (x in r[..|r|]) == (x in multiset(r))
  {
    assert r[..|r|] == r;
  }

  /** Slot `j`, after the first `n` iterations of the desktop loop. */
  lemma {:induction false} CardAfter(dir: seq<Station>, r: seq<Station>, cards: seq<Option<CardText>>, n: nat, j: int)
    requires UniqueNames(dir) && UniqueNames(r) && AllFound(dir, r)
    requires forall k :: 0 <= k < |r| ==> r[k] == dir[FindIndex(dir, r[k].name)]
    requires n <= |r| && |cards| == |dir| && 0 <= j < |dir|
    ensures DesktopCards(dir, r, cards, n)[j] ==
      if dir[j] in r[..n]
      then Some(CardText(FormatDistance(Key(dir[j])), dir[j] == r[0]))
      else cards[j]
  {
    if n > 0 {
      CardAfter(dir, r, cards, n - 1, j);
      var prev := DesktopCards(dir, r, cards, n - 1);
      var w := FindIndex(dir, r[n - 1].name);
      assert DesktopCards(dir, r, cards, n) == prev[w := Some(CardFor(r[n - 1], n - 1))];
      PrefixGrows(r, n, dir[j]);
      assert r[n - 1] == dir[w];
      if j == w {
        assert dir[j] in r[..n];
        assert (n - 1 == 0) <==> r[n - 1] == r[0] by {
          if n - 1 != 0 {
            assert r[0].name != r[n - 1].name;
          }
        }
      } else {
        assert dir[w].name != dir[j].name;
        assert dir[j] != r[n - 1];
        assert (dir[j] in r[..n]) == (dir[j] in r[..n - 1]);
      }
    }
  }

  /**
   * After the desktop loop over a ranking of the directory, card j shows
   * directory station j's own distance, and is marked nearest exactly when
   * that station is the one ranked first.
   */
  lemma DesktopCardsLabelled(dir: seq<Station>, r: seq<Station>, cards: seq<Option<CardText>>)
    requires UniqueNames(dir) && multiset(r) == multiset(dir) && |cards| == |dir|
    ensures |r| == |dir| && AllFound(dir, r)
    ensures forall j :: 0 <= j < |dir| ==>
      DesktopCards(dir, r, cards, |r|)[j] == Some(CardText(FormatDistance(Key(dir[j])), dir[j] == r[0]))
  {
    RankedMapsBack(dir, r);
    PermutationKeepsNamesUnique(dir, r);
    forall j | 0 <= j < |dir|
      ensures DesktopCards(dir, r, cards, |r|)[j] == Some(CardText(FormatDistance(Key(dir[j])), dir[j] == r[0]))
    {
      CardAfter(dir, r, cards, |r|, j);
      WholePrefix(r, dir[j]);
    }
  }

  predicate MarkedNearest(card: Option<CardText>) {
    card.Some? && card.value.nearest
  }

  /** Exactly one desktop card carries " (Nearest)" when the directory is not empty. */
  lemma ExactlyOneNearestCard(dir: seq<Station>, r: seq<Station>, cards: seq<Option<CardText>>)
    requires UniqueNames(dir) && multiset(r) == multiset(dir) && |cards| == |dir| && |dir| > 0
    ensures |r| == |dir| && AllFound(dir, r)
    ensures exists j :: 0 <= j < |dir| && DesktopCards(dir, r, cards, |r|)[j] == Some(CardText(FormatDistance(Key(dir[j])), true))
    ensures forall j1, j2 :: 0 <= j1 < j2 < |dir| ==>
      !(MarkedNearest(DesktopCards(dir, r, cards, |r|)[j1]) && MarkedNearest(DesktopCards(dir, r, cards, |r|)[j2]))
  {
    DesktopCardsLabelled(dir, r, cards);
    RankedMapsBack(dir, r);
    var j0 := FindIndex(dir, r[0].name);
    assert dir[j0] == r[0];
    forall j1, j2 | 0 <= j1 < j2 < |dir|
      ensures !(MarkedNearest(DesktopCards(dir, r, cards, |r|)[j1]) && MarkedNearest(DesktopCards(dir, r, cards, |r|)[j2]))
    {
      assert dir[j1].name != dir[j2].name;
    }
  }
}
