/**
 * The location ranker: the list the view renders. Without a user position
 * every location is copied with no distance, in list order; with one, every
 * location is annotated with its distance from the user and the list is
 * stably sorted by that distance.
 */
module Ranker {
  import opened Places
  import opened DistanceSort

  /** The distance annotation of `l`: from the user's position when known, none otherwise. */
  function KmFrom(userPos: Option<Position>, l: Location, dist: Distance): Option<real>
  {
    match userPos
    case None => None
    case Some(p) => Some(dist(p, l.Coords()))
  }

  /** Each location copied with its distance annotation, in list order. */
  function Annotate(locations: seq<Location>, userPos: Option<Position>, dist: Distance): seq<Entry>
  {
    seq(|locations|, i requires 0 <= i < |locations| => Entry(locations[i], KmFrom(userPos, locations[i], dist)))
  }

  /** The ranked list: annotated, and sorted by distance once a position is known. */
  function Rank(locations: seq<Location>, userPos: Option<Position>, dist: Distance): (r: seq<Entry>)
    ensures |r| == |locations|
  {
    if userPos.None? then Annotate(locations, None, dist)
    else Sort(Annotate(locations, userPos, dist))
  }

  /** Builds the ranked list: annotates into a fresh array and, when a position is known, sorts it in place. */
  method Enriched(locations: seq<Location>, userPos: Option<Position>, dist: Distance) returns (r: seq<Entry>)
    ensures r == Rank(locations, userPos, dist)
  {
    var annotated := Annotate(locations, userPos, dist);
    if userPos.None? {
      return annotated;
    }
    var a := new Entry[|annotated|](i requires 0 <= i < |annotated| => annotated[i]);
    assert a[..] == annotated;
    SortInPlace(a);
    r := a[..];
  }

  /** With no position, entry i is location i with no distance. */
  lemma RankWithoutPosition(locations: seq<Location>, dist: Distance)
    ensures var r := Rank(locations, None, dist);
      |r| == |locations| && forall i :: 0 <= i < |r| ==> r[i] == Entry(locations[i], None)
  {
  }

  /**
   * Ranking drops and adds no location: the entries are a permutation of the
   * annotated input, whose records are the input list in order.
   */
  lemma RankIsPermutation(locations: seq<Location>, userPos: Option<Position>, dist: Distance)
    ensures Locs(Annotate(locations, userPos, dist)) == locations
    ensures multiset(Rank(locations, userPos, dist)) == multiset(Annotate(locations, userPos, dist))
  {
    var a := Annotate(locations, userPos, dist);
    if userPos.Some? {
      SortPermutes(a);
    }
  }

  /** With a position, every entry carries its own distance from that position. */
  lemma RankDistances(locations: seq<Location>, p: Position, dist: Distance)
    ensures forall e :: e in Rank(locations, Some(p), dist) ==> e.km == Some(dist(p, e.loc.Coords()))
  {
    var a := Annotate(locations, Some(p), dist);
    SortPermutes(a);
    forall e | e in Sort(a) ensures e.km == Some(dist(p, e.loc.Coords())) {
      assert e in multiset(Sort(a));
      assert e in a;
    }
  }

  /** With a position, the list is non-decreasing by distance and keeps the input order among equal distances. */
  lemma RankSortedStable(locations: seq<Location>, p: Position, dist: Distance)
    ensures Sorted(Rank(locations, Some(p), dist))
    ensures SameKeyOrder(Rank(locations, Some(p), dist), Annotate(locations, Some(p), dist))
  {
    var a := Annotate(locations, Some(p), dist);
    SortSorted(a);
    SortKeepsKeyOrder(a);
  }

  /** Ranking keeps identifiers unique. */
  lemma RankKeepsUniqueIds(locations: seq<Location>, userPos: Option<Position>, dist: Distance)
    requires UniqueIds(locations)
    ensures UniqueIds(Locs(Rank(locations, userPos, dist)))
  {
    RankIsPermutation(locations, userPos, dist);
    PermutationKeepsUniqueIds(Annotate(locations, userPos, dist), Rank(locations, userPos, dist));
  }

  /** A location is in the ranked list, with its distance annotation, exactly when it is in the input. */
  lemma RankMembers(locations: seq<Location>, userPos: Option<Position>, dist: Distance, l: Location)
    ensures l in locations <==> Entry(l, KmFrom(userPos, l, dist)) in Rank(locations, userPos, dist)
  {
    var a := Annotate(locations, userPos, dist);
    var r := Rank(locations, userPos, dist);
    assert Locs(a) == locations;
    if userPos.Some? {
      SortPermutes(a);
    }
    assert multiset(r) == multiset(a);
    if l in locations {
      var i :| 0 <= i < |locations| && locations[i] == l;
      assert a[i] == Entry(l, KmFrom(userPos, l, dist));
      assert a[i] in multiset(r);
    }
    if Entry(l, KmFrom(userPos, l, dist)) in r {
      assert Entry(l, KmFrom(userPos, l, dist)) in multiset(a);
      var i :| 0 <= i < |a| && a[i] == Entry(l, KmFrom(userPos, l, dist));
      assert locations[i] == l;
    }
  }
}
