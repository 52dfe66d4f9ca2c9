/**
 * Resolving the selected identifier against the ranked list, the "active"
 * highlight, and the map centre's fallback chain.
 */
module Selection {
  import opened Places

  /** The initial selection: the first location's identifier, or none for an empty list. */
  function InitialSelection(locations: seq<Location>): (r: Option<Id>)
    ensures r.None? <==> locations == []
    ensures r.Some? ==> r.value == locations[0].id
  {
    if |locations| > 0 then Some(locations[0].id) else None
  }

  /** The entry's identifier is (strictly) the selected one. */
  predicate Matches(e: Entry, selectedId: Option<Id>)
  {
    selectedId == Some(e.loc.id)
  }

  /** The index of the first entry whose identifier is the selected one, if any. */
  function FindSelected(rs: seq<Entry>, selectedId: Option<Id>): (r: Option<nat>)
    ensures r.Some? ==> r.value < |rs| && Matches(rs[r.value], selectedId)
    ensures r.Some? ==> forall j :: 0 <= j < r.value ==> !Matches(rs[j], selectedId)
    ensures r.None? ==> forall j :: 0 <= j < |rs| ==> !Matches(rs[j], selectedId)
  {
    if rs == [] then None
    else if Matches(rs[0], selectedId) then Some(0)
    else
      match FindSelected(rs[1..], selectedId)
      case Some(k) => Some(k + 1)
      case None => None
  }

  /**
   * The selected entry: the first one matching the selected identifier, else
   * the first entry, else none. An unknown identifier is never an error.
   */
  function Resolve(rs: seq<Entry>, selectedId: Option<Id>): (r: Option<Entry>)
    ensures r.None? <==> rs == []
    ensures forall j ::
      (0 <= j < |rs| && Matches(rs[j], selectedId) && forall m :: 0 <= m < j ==> !Matches(rs[m], selectedId))
      ==> r == Some(rs[j])
    ensures rs != [] && (forall j :: 0 <= j < |rs| ==> !Matches(rs[j], selectedId)) ==> r == Some(rs[0])
  {
    match FindSelected(rs, selectedId)
    case Some(k) => Some(rs[k])
    case None => if rs == [] then None else Some(rs[0])
  }

  /**
   * An entry is highlighted when its identifier is the resolved entry's, or
   * the raw selection when nothing resolves. The resolved entry itself is
   * always highlighted; with nothing resolved and nothing selected, no entry is.
   */
  predicate IsActive(e: Entry, selected: Option<Entry>, selectedId: Option<Id>)
    ensures selected == Some(e) ==> IsActive(e, selected, selectedId)
    ensures selected.None? && selectedId.None? ==> !IsActive(e, selected, selectedId)
  {
    match selected
    case Some(s) => e.loc.id == s.loc.id
    case None => selectedId == Some(e.loc.id)
  }

  /** With unique identifiers and a non-empty list, exactly one entry is active: the resolved one. */
  lemma ExactlyOneActive(rs: seq<Entry>, selectedId: Option<Id>)
    requires rs != []
    requires UniqueIds(Locs(rs))
    ensures exists i :: 0 <= i < |rs| && IsActive(rs[i], Resolve(rs, selectedId), selectedId)
    ensures forall i, j ::
      (0 <= i < |rs| && 0 <= j < |rs| &&
       IsActive(rs[i], Resolve(rs, selectedId), selectedId) &&
       IsActive(rs[j], Resolve(rs, selectedId), selectedId))
      ==> i == j
    ensures forall i :: 0 <= i < |rs| && IsActive(rs[i], Resolve(rs, selectedId), selectedId) ==>
      Resolve(rs, selectedId) == Some(rs[i])
  {
    var k := match FindSelected(rs, selectedId) case Some(k) => k case None => 0;
    assert Resolve(rs, selectedId) == Some(rs[k]);
    assert IsActive(rs[k], Resolve(rs, selectedId), selectedId);
    forall i | 0 <= i < |rs| && IsActive(rs[i], Resolve(rs, selectedId), selectedId) ensures i == k {
      assert Locs(rs)[i].id == Locs(rs)[k].id;
    }
  }

  /** The map's default centre when nothing else is known. */
  const DefaultCenter: Position := Position(37.7749, -122.4194)

  /** The map centre: the selected entry's coordinates, else the user's position, else the default. */
  function MapCenter(selected: Option<Entry>, userPos: Option<Position>): (r: Position)
    ensures selected.Some? ==> r == selected.value.loc.Coords()
    ensures selected.None? && userPos.Some? ==> r == userPos.value
    ensures r == DefaultCenter || (selected.Some? && r == selected.value.loc.Coords()) || (userPos.Some? && r == userPos.value)
  {
    match selected
    case Some(s) => s.loc.Coords()
    case None =>
      match userPos
      case Some(p) => p
      case None => DefaultCenter
  }
}
