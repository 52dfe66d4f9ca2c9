/**
 * Entities of the location finder: the static location records, coordinate
 * pairs, the distance-annotated entries the view renders, and the host
 * services (distance, number formatting, URI encoding) that the model treats
 * as opaque functions.
 */
module Places {

  datatype Option<+T> = None | Some(value: T)

  /** Identifier of a location; the view compares identifiers with strict equality. */
  type Id = int

  /** A latitude/longitude pair in degrees. */
  datatype Position = Position(lat: real, lng: real)

  /** One record of the static location list. */
  datatype Location = Location(id: Id, name: string, address: string, notes: string, lat: real, lng: real)
  {
    function Coords(): Position { Position(lat, lng) }
  }

  /** A location together with its distance `km` from the user, None while no position is known. */
  datatype Entry = Entry(loc: Location, km: Option<real>)

  /** The great-circle distance in kilometres between two positions; its formula is not modelled. */
  type Distance = (Position, Position) -> real

  /**
   * The host's built-ins the view calls: `encodeURIComponent`, the default
   * number-to-string conversion, `Math.round` and `Number.prototype.toFixed(1)`.
   */
  datatype Runtime = Runtime(
    encode: string -> string,
    numText: real -> string,
    round: real -> real,
    toFixed1: real -> string)

  /** The location records of a list of entries, in order. */
  function Locs(s: seq<Entry>): seq<Location>
  {
    seq(|s|, i requires 0 <= i < |s| => s[i].loc)
  }

  /** No two records of `s` share an identifier. */
  ghost predicate UniqueIds(s: seq<Location>)
  {
    forall i, j :: 0 <= i < j < |s| ==> s[i].id != s[j].id
  }

  /** With unique identifiers, no entry occurs twice. */
  lemma {:induction false} UniqueIdsOccurOnce(s: seq<Entry>, x: Entry)
    requires UniqueIds(Locs(s))
    ensures multiset(s)[x] <= 1
    decreases |s|
  {
    if s != [] {
      assert s == [s[0]] + s[1..];
      assert Locs(s[1..]) == Locs(s)[1..];
      UniqueIdsOccurOnce(s[1..], x);
      if x == s[0] {
        forall m | 0 <= m < |s| - 1 ensures s[1..][m] != x {
          assert Locs(s)[0].id != Locs(s)[m + 1].id;
        }
        assert x !in s[1..];
      }
    }
  }

  /** A reordering of a list of entries with unique identifiers still has unique identifiers. */
  lemma PermutationKeepsUniqueIds(a: seq<Entry>, b: seq<Entry>)
    requires multiset(a) == multiset(b)
    requires UniqueIds(Locs(a))
    ensures UniqueIds(Locs(b))
  {
    forall i, j | 0 <= i < j < |b| ensures Locs(b)[i].id != Locs(b)[j].id {
      if b[i] == b[j] {
        assert b == b[..j] + [b[j]] + b[j + 1..];
        assert b[i] in b[..j];
        assert multiset(b)[b[i]] >= 2;
        UniqueIdsOccurOnce(a, b[i]);
        assert false;
      } else {
        assert b[i] in multiset(a) && b[j] in multiset(a);
        var i' :| 0 <= i' < |a| && a[i'] == b[i];
        var j' :| 0 <= j' < |a| && a[j'] == b[j];
        if i' < j' {
          assert Locs(a)[i'].id != Locs(a)[j'].id;
        } else {
          assert Locs(a)[j'].id != Locs(a)[i'].id;
        }
      }
    }
  }
}
