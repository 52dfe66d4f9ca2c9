/**
 * The finder's component state: the static location list, the user's
 * position once geolocation succeeds, and the selected identifier. The
 * ranked list, the resolved selection, the highlight and the map centre are
 * derived from that state on every render and never stored.
 */
module Finder {
  import opened Places
  import opened DistanceSort
  import opened Ranker
  import opened Selection

  class FinderState {
    const locations: seq<Location>
    const dist: Distance
    var userPos: Option<Position>
    var selectedId: Option<Id>

    /** Mounting the view: no position yet, the first location selected. */
    constructor (locations: seq<Location>, dist: Distance)
      ensures this.locations == locations && this.dist == dist
      ensures userPos == None
      ensures selectedId == InitialSelection(locations)
    {
      this.locations := locations;
      this.dist := dist;
      userPos := None;
      selectedId := InitialSelection(locations);
    }

    /** The ranked list the view renders. */
    function Ranking(): seq<Entry>
      reads this
    {
      Rank(locations, userPos, dist)
    }

    /** The resolved selection; it exists exactly when the location list is non-empty. */
    function Selected(): (r: Option<Entry>)
      reads this
      ensures r.None? <==> locations == []
    {
      RankIsPermutation(locations, userPos, dist);
      assert |Ranking()| == |multiset(Ranking())| == |locations|;
      Resolve(Ranking(), selectedId)
    }

    /** Whether `e` is drawn highlighted, with its notes and directions button. */
    predicate Active(e: Entry)
      reads this
    {
      IsActive(e, Selected(), selectedId)
    }

    /** The point the map is centred on. */
    function Center(): Position
      reads this
    {
      MapCenter(Selected(), userPos)
    }

    /** Clicking a list item or a marker: the selection becomes `id`, unchecked; nothing else changes. */
    method Select(id: Id)
      modifies this
      ensures selectedId == Some(id) && userPos == old(userPos)
      ensures (exists l :: l in locations && l.id == id) ==> Selected().Some? && Selected().value.loc.id == id
    {
      selectedId := Some(id);
      forall l | l in locations && l.id == id
        ensures Selected().Some? && Selected().value.loc.id == id
      {
        SelectionFollowsId(locations, userPos, dist, l);
      }
    }

    /** Geolocation succeeded: the position is recorded; the selection is kept. */
    method SetUserPos(p: Position)
      modifies this
      ensures userPos == Some(p) && selectedId == old(selectedId)
    {
      userPos := Some(p);
    }
  }

  /**
   * A selected identifier that names a location resolves to an entry with
   * that identifier whether or not a position is known: the selection
   * follows the identifier, not the list position. With unique identifiers
   * it is that very location, with its distance annotation.
   */
  lemma SelectionFollowsId(locations: seq<Location>, userPos: Option<Position>, dist: Distance, l: Location)
    requires l in locations
    ensures var s := Resolve(Rank(locations, userPos, dist), Some(l.id));
      s.Some? && s.value.loc.id == l.id
    ensures UniqueIds(locations) ==>
      Resolve(Rank(locations, userPos, dist), Some(l.id)) == Some(Entry(l, KmFrom(userPos, l, dist)))
  {
    var r := Rank(locations, userPos, dist);
    RankMembers(locations, userPos, dist, l);
    var e := Entry(l, KmFrom(userPos, l, dist));
    var k :| 0 <= k < |r| && r[k] == e;
    assert Matches(r[k], Some(l.id));
    var f := FindSelected(r, Some(l.id));
    assert f.Some?;
    if UniqueIds(locations) {
      RankKeepsUniqueIds(locations, userPos, dist);
      assert Locs(r)[f.value].id == Locs(r)[k].id;
    }
  }

  /** Right after mounting, the resolved selection is the first location (its distance unknown). */
  lemma InitiallyFirstSelected(s: FinderState)
    requires s.userPos == None && s.selectedId == InitialSelection(s.locations)
    requires s.locations != []
    ensures s.Selected() == Some(Entry(s.locations[0], None))
    ensures s.Center() == s.locations[0].Coords()
  {
    RankWithoutPosition(s.locations, s.dist);
  }

  /** With unique identifiers and at least one location, exactly one entry of the rendered list is active. */
  lemma ExactlyOneActiveEntry(s: FinderState)
    requires UniqueIds(s.locations) && s.locations != []
    ensures exists i :: 0 <= i < |s.Ranking()| && s.Active(s.Ranking()[i])
    ensures forall i, j ::
      (0 <= i < |s.Ranking()| && 0 <= j < |s.Ranking()| && s.Active(s.Ranking()[i]) && s.Active(s.Ranking()[j]))
      ==> i == j
  {
    RankKeepsUniqueIds(s.locations, s.userPos, s.dist);
    ExactlyOneActive(s.Ranking(), s.selectedId);
  }

  /**
   * The map centre is always a location's coordinates while the list is
   * non-empty (the selected one's); the user's position is used only when
   * there are no locations, and the default only when there is no position either.
   */
  lemma CenterFallback(s: FinderState)
    ensures s.locations != [] ==> s.Center() == s.Selected().value.loc.Coords()
    ensures s.locations != [] ==> exists l :: l in s.locations && s.Center() == l.Coords()
    ensures s.locations == [] && s.userPos.Some? ==> s.Center() == s.userPos.value
    ensures s.locations == [] && s.userPos.None? ==> s.Center() == DefaultCenter
  {
    if s.locations != [] {
      var e := s.Selected().value;
      var a := Annotate(s.locations, s.userPos, s.dist);
      assert e in s.Ranking();
      RankIsPermutation(s.locations, s.userPos, s.dist);
      assert e in multiset(a);
      var i :| 0 <= i < |a| && a[i] == e;
      assert s.locations[i] == e.loc;
    }
  }

  /**
   * The two-location walk-through: the user stands on the first location,
   * the second is farther away. The ranked list keeps the order with
   * distances 0 and d, the first location stays selected and the map is
   * centred on it.
   */
  lemma NearestFirstScenario(dist: Distance)
    requires dist(Position(37.0, -122.0), Position(37.0, -122.0)) == 0.0
    requires dist(Position(37.0, -122.0), Position(38.0, -122.0)) > 0.0
    ensures var l1 := Location(1, "", "", "", 37.0, -122.0);
      var l2 := Location(2, "", "", "", 38.0, -122.0);
      var user := Position(37.0, -122.0);
      var r := Rank([l1, l2], Some(user), dist);
      && r == [Entry(l1, Some(0.0)), Entry(l2, Some(dist(user, l2.Coords())))]
      && Resolve(r, InitialSelection([l1, l2])) == Some(Entry(l1, Some(0.0)))
      && MapCenter(Resolve(r, InitialSelection([l1, l2])), Some(user)) == user
  {
    var l1 := Location(1, "", "", "", 37.0, -122.0);
    var l2 := Location(2, "", "", "", 38.0, -122.0);
    var user := Position(37.0, -122.0);
    var e1, e2 := Entry(l1, Some(0.0)), Entry(l2, Some(dist(user, l2.Coords())));
    var a := Annotate([l1, l2], Some(user), dist);
    assert a == [e1, e2];
    assert a[..1] == [e1];
    assert [e1][..0] == [];
    assert Sort([e1]) == [e1];
    assert Sort(a) == InsertLast([e1], e2);
  }
}
