/**
 * The ranking step of the locate callbacks:
 * `[...stations].sort((a, b) => a.distance - b.distance)`.
 *
 * `Array.prototype.sort` is stable, so the result is the unique ordering that
 * is non-decreasing by distance and keeps directory order among equal
 * distances. `SortByDistance` is one definition of that ordering (stable
 * insertion); `SortCharacterized` shows any other stable sort agrees with it.
 */
module Ranking {
  import opened Stations

  /** Non-decreasing by the comparator's key. */
  predicate Sorted(r: seq<Station>) {
    forall i, j :: 0 <= i < j < |r| ==> Key(r[i]) <= Key(r[j])
  }

  /** The entries of `s` whose distance is `d`, in the order `s` has them. */
  function WithKey(s: seq<Station>, d: real): seq<Station> {
    if s == [] then []
    else (if Key(s[0]) == d then [s[0]] else []) + WithKey(s[1..], d)
  }

  /** Places `x` in front of the first entry that is not nearer than it. */
  function Insert(x: Station, t: seq<Station>): (r: seq<Station>)
    ensures |r| == |t| + 1
  {
    if t == [] || Key(x) <= Key(t[0]) then [x] + t
    else [t[0]] + Insert(x, t[1..])
  }

  /** The spread copy of the directory, sorted ascending by distance. */
  function SortByDistance(s: seq<Station>): (r: seq<Station>)
    ensures |r| == |s|
  {
    if s == [] then [] else Insert(s[0], SortByDistance(s[1..]))
  }

  lemma {:induction false} InsertPermutes(x: Station, t: seq<Station>)
    ensures multiset(Insert(x, t)) == multiset(t) + multiset{x}
  {
    if t == [] || Key(x) <= Key(t[0]) {
    } else {
      InsertPermutes(x, t[1..]);
      assert t == [t[0]] + t[1..];
    }
  }

  /** The ranked list holds exactly the directory's entries. */
  lemma {:induction false} SortPermutes(s: seq<Station>)
    ensures multiset(SortByDistance(s)) == multiset(s)
  {
    if s != [] {
      SortPermutes(s[1..]);
      InsertPermutes(s[0], SortByDistance(s[1..]));
      assert s == [s[0]] + s[1..];
    }
  }

  /** No entry of `s` is nearer than `b`. */
  predicate AtLeast(s: seq<Station>, b: real) {
    forall i :: 0 <= i < |s| ==> b <= Key(s[i])
  }

  lemma {:induction false} InsertAtLeast(x: Station, t: seq<Station>, b: real)
    requires b <= Key(x) && AtLeast(t, b)
    ensures AtLeast(Insert(x, t), b)
  {
    if t != [] && Key(t[0]) < Key(x) {
      InsertAtLeast(x, t[1..], b);
    }
  }

  lemma {:induction false} InsertSorted(x: Station, t: seq<Station>)
    requires Sorted(t)
    ensures Sorted(Insert(x, t))
  {
    if t != [] && Key(t[0]) < Key(x) {
      var rest := Insert(x, t[1..]);
      InsertSorted(x, t[1..]);
      InsertAtLeast(x, t[1..], Key(t[0]));
      var r := [t[0]] + rest;
      forall i, j | 0 <= i < j < |r| ensures Key(r[i]) <= Key(r[j]) {
        if i > 0 {
          assert r[i] == rest[i - 1] && r[j] == rest[j - 1];
        } else {
          assert r[j] == rest[j - 1];
        }
      }
    }
  }

  /** The ranked list is non-decreasing by distance. */
  lemma {:induction false} SortSorted(s: seq<Station>)
    ensures Sorted(SortByDistance(s))
  {
    if s != [] {
      SortSorted(s[1..]);
      InsertSorted(s[0], SortByDistance(s[1..]));
    }
  }

  lemma WithKeyCons(y: Station, t: seq<Station>, d: real)
    ensures WithKey([y] + t, d) == (if Key(y) == d then [y] else []) + WithKey(t, d)
  {
    assert ([y] + t)[1..] == t;
  }

  lemma {:induction false} InsertKeepsTies(x: Station, t: seq<Station>, d: real)
    ensures WithKey(Insert(x, t), d) == (if Key(x) == d then [x] else []) + WithKey(t, d)
  {
    if t == [] || Key(x) <= Key(t[0]) {
      WithKeyCons(x, t, d);
    } else {
      var rest := Insert(x, t[1..]);
      InsertKeepsTies(x, t[1..], d);
      WithKeyCons(t[0], rest, d);
      WithKeyCons(t[0], t[1..], d);
      assert t == [t[0]] + t[1..];
      if Key(x) == d {
        assert Key(t[0]) != d;
      }
    }
  }

  /** Stability: stations at the same distance keep their directory order. */
  lemma {:induction false} SortStable(s: seq<Station>, d: real)
    ensures WithKey(SortByDistance(s), d) == WithKey(s, d)
  {
    if s != [] {
      SortStable(s[1..], d);
      InsertKeepsTies(s[0], SortByDistance(s[1..]), d);
    }
  }

  lemma {:induction false} WithKeyMembers(s: seq<Station>, d: real, x: Station)
    ensures x in WithKey(s, d) <==> x in s && Key(x) == d
  {
    if s != [] {
      WithKeyMembers(s[1..], d, x);
      assert s == [s[0]] + s[1..];
    }
  }

  /**
   * Two lists that are both sorted and agree on the order of every group
   * of equal distances are the same list.
   */
  lemma {:induction false} SortedTiesDetermine(r1: seq<Station>, r2: seq<Station>)
    requires Sorted(r1) && Sorted(r2)
    requires forall d :: WithKey(r1, d) == WithKey(r2, d)
    ensures r1 == r2
  {
    if r1 != [] && r2 != [] {
      var k1, k2 := Key(r1[0]), Key(r2[0]);
      WithKeyMembers(r1, k2, r2[0]);
      WithKeyMembers(r2, k1, r1[0]);
      assert WithKey(r2, k2) == WithKey(r1, k2);
      assert WithKey(r1, k1) == WithKey(r2, k1);
      assert k1 <= k2 by {
        var i :| 0 <= i < |r1| && r1[i] == r2[0];
      }
      assert k2 <= k1 by {
        var i :| 0 <= i < |r2| && r2[i] == r1[0];
      }
      assert r1[0] == r2[0] by {
        assert WithKey(r1, k1)[0] == r1[0];
        assert WithKey(r2, k1)[0] == r2[0];
      }
      forall d ensures WithKey(r1[1..], d) == WithKey(r2[1..], d) {
        var h := if Key(r1[0]) == d then [r1[0]] else [];
        assert WithKey(r1, d) == h + WithKey(r1[1..], d);
        assert WithKey(r2, d) == h + WithKey(r2[1..], d);
        assert WithKey(r1, d) == WithKey(r2, d);
        assert WithKey(r1[1..], d) == (h + WithKey(r1[1..], d))[|h|..];
      }
      SortedTiesDetermine(r1[1..], r2[1..]);
      assert r1 == [r1[0]] + r1[1..] && r2 == [r2[0]] + r2[1..];
    } else if r1 != [] {
      WithKeyMembers(r1, Key(r1[0]), r1[0]);
    } else if r2 != [] {
      WithKeyMembers(r2, Key(r2[0]), r2[0]);
    }
  }

  /**
   * Any stable ascending sort of `s` yields `SortByDistance(s)`: the model
   * does not depend on which algorithm the JavaScript engine uses.
   */
  lemma SortCharacterized(s: seq<Station>, r: seq<Station>)
    requires Sorted(r)
    requires forall d :: WithKey(r, d) == WithKey(s, d)
    ensures r == SortByDistance(s)
  {
    SortSorted(s);
    forall d ensures WithKey(r, d) == WithKey(SortByDistance(s), d) {
      SortStable(s, d);
    }
    SortedTiesDetermine(r, SortByDistance(s));
  }

  /** The entry labelled nearest is no farther than any directory entry. */
  lemma {:induction false} FirstIsNearest(s: seq<Station>)
    requires |s| > 0
    ensures forall x :: x in s ==> Key(SortByDistance(s)[0]) <= Key(x)
  {
    var r := SortByDistance(s);
    SortSorted(s);
    SortPermutes(s);
    forall x | x in s ensures Key(r[0]) <= Key(x) {
      assert x in multiset(r);
      var i :| 0 <= i < |r| && r[i] == x;
    }
  }

  /** A station strictly nearer than all others is ranked first. */
  lemma StrictlyNearestFirst(s: seq<Station>, i: int)
    requires 0 <= i < |s|
    requires forall j :: 0 <= j < |s| && j != i ==> Key(s[i]) < Key(s[j])
    ensures SortByDistance(s)[0] == s[i]
  {
    var r := SortByDistance(s);
    FirstIsNearest(s);
    SortPermutes(s);
    assert r[0] in multiset(s);
    var k :| 0 <= k < |s| && s[k] == r[0];
    assert Key(r[0]) <= Key(s[i]);
  }

  /**
   * A user standing at the School Canteen, with a distance function that
   * gives 0 there and more than 0 for the other three stations, sees the
   * canteen ranked first at 0 meters.
   */
  lemma CanteenRankedFirst(distance: DistanceFn)
    requires var c := Directory()[0];
      distance(c.lat, c.lng, c.lat, c.lng) == 0.0
    requires forall i :: 1 <= i < 4 ==>
      distance(Directory()[0].lat, Directory()[0].lng, Directory()[i].lat, Directory()[i].lng) > 0.0
    ensures var user := GeoPoint(Directory()[0].lat, Directory()[0].lng);
      var r := SortByDistance(WithDistances(Directory(), user, distance));
      r[0].name == "School Canteen" && Key(r[0]) == 0.0
  {
    var d := Directory();
    var user := GeoPoint(d[0].lat, d[0].lng);
    var s := WithDistances(d, user, distance);
    forall j | 0 <= j < |s| && j != 0 ensures Key(s[0]) < Key(s[j]) {
      assert Key(s[j]) == distance(user.lat, user.lng, d[j].lat, d[j].lng);
    }
    StrictlyNearestFirst(s, 0);
  }
}
