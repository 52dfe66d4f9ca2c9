# Location finder: ranking, selection and directions hand-off

A Dafny model of the logic in the location-finder widget `src/App.jsx`. The
widget lists free period-product locations, locates the visitor, ranks the
locations by straight-line distance, keeps one location selected to
highlight it and centre the map on it, and hands navigation off to Apple
Maps or Google Maps with a deep link.

Modules, one per component of the view:

- `Places` (`places.dfy`): the records: `Location`, `Position`, and
  `Entry`, which is a location with its distance `km`. It also holds the
  host services that the model treats as opaque: `Distance`, which stands
  for `haversineKm`, and `Runtime`, which holds `encodeURIComponent`,
  number-to-string, `Math.round` and `toFixed(1)`.
- `DistanceSort` (`distance_sort.dfy`): the stable sort by the key
  `km ?? 1e9`. `Sort` is the specification, a stable insertion sort on
  sequences. `SortInPlace` sorts an array in place and is proved to produce
  `Sort` of the array's old contents. `StableSortUnique` proves that every
  stable sort by this key gives the same list. So the engine's choice of
  sort algorithm does not affect the result.
- `Ranker` (`ranker.dfy`): the `enriched` list. It is the `Rank` function;
  the `Enriched` method returns the mapped sequence directly when no
  position is known, and otherwise maps into a fresh array and sorts that
  array in place.
- `Selection` (`selection.dfy`): the initial selection, the
  `find(...) || enriched[0] || null` resolution, the "active" highlight and
  the map-centre fallback chain.
- `Finder` (`finder.dfy`): the component state as the class `FinderState`.
  It holds the static list, the distance function, `userPos` and
  `selectedId`. `Select` and `SetUserPos` are the state setters. The
  ranking, the selection, the highlight and the centre are derived
  functions of that state.
- `DeepLink` (`deep_link.dfy`): the user-agent platform test and the
  directions URL. A small query-string reader (`Param`) reads the built URL
  back.
- `Format` (`format.dfy`): `formatDistance` and the list item's distance
  line. `ReadDistance` reads a display string back into its number and
  unit.

Notes on what the code does, which the model keeps:

- Every entry whose identifier equals the resolved entry's identifier is
  highlighted (src/App.jsx:111), so several are when that identifier is
  duplicated; `ExactlyOneActive` proves a single highlight under unique
  identifiers.
- The sort key gives an unknown distance 1e9 km (src/App.jsx:80), but that
  fallback never applies: the sort runs only when a position is known, and
  then every entry has a distance (src/App.jsx:79; `RankDistances`).
- The Apple link is an `https://maps.apple.com/` web URL (src/App.jsx:39).

## Model

| member | source | states |
|---|---|---|
| `Places.PermutationKeepsUniqueIds` | src/App.jsx:78-80 | Reordering a list of entries keeps identifiers unique. |
| `DistanceSort.SortPermutes` | src/App.jsx:80 | The sort only reorders: its result has the same multiset of entries as its input. |
| `DistanceSort.SortSorted` | src/App.jsx:80 | The sort's result is non-decreasing by the key `km ?? 1e9`. |
| `DistanceSort.SortKeepsKeyOrder` | src/App.jsx:80 | The sort is stable: for every key value, the entries with that key keep their input order. |
| `DistanceSort.StableSortUnique` | src/App.jsx:80 | Any list that is sorted by the key and stable for the input equals `Sort` of the input, so every stable sort gives the same ranking. |
| `DistanceSort.InsertInPlace` | src/App.jsx:80 | Moving one element left into the sorted prefix of an array produces the specification's insertion and leaves the suffix unchanged. |
| `DistanceSort.SortInPlace` | src/App.jsx:80 | Sorting the freshly mapped array in place leaves it equal to `Sort` of its old contents. |
| `Ranker.Rank` | src/App.jsx:76-81 | The `enriched` list: it has one entry per location; `RankWithoutPosition`, `RankIsPermutation`, `RankDistances`, `RankSortedStable` and `RankMembers` state its contents and order. |
| `Ranker.Enriched` | src/App.jsx:76-81 | The imperative construction (map into a fresh array, then sort it in place when a position is known) returns exactly `Rank`. |
| `Ranker.RankWithoutPosition` | src/App.jsx:77 | Without a user position, the list has the input's length and order, and entry i is location i with `km` null. |
| `Ranker.RankIsPermutation` | src/App.jsx:77-80 | The ranked list is a permutation of the annotated input, and the annotated input's records are the input list in order. Nothing is dropped or added. |
| `Ranker.RankDistances` | src/App.jsx:78-79 | With a position, every entry's `km` is the distance from the user's position to that entry's coordinates. |
| `Ranker.RankSortedStable` | src/App.jsx:78-80 | With a position, the list is non-decreasing by `km ?? 1e9`, and entries with equal keys keep their input order. |
| `Ranker.RankKeepsUniqueIds` | src/App.jsx:76-81 | Ranking keeps unique identifiers unique. |
| `Ranker.RankMembers` | src/App.jsx:76-81 | A location is in the input exactly when the ranked list holds it with its distance annotation. |
| `Selection.InitialSelection` | src/App.jsx:62 | The initial selection is null exactly for an empty list, and otherwise the first location's id. |
| `Selection.FindSelected` | src/App.jsx:84 | `find` returns the index of the first entry whose id equals `selectedId`, or nothing when no entry matches. |
| `Selection.Resolve` | src/App.jsx:83-86 | The resolved selection is the first matching entry, else the first entry, else null. It is null exactly when the list is empty, so an unknown id never fails. |
| `Selection.IsActive` | src/App.jsx:111 | The resolved entry is always highlighted; with nothing resolved and nothing selected, no entry is. `ExactlyOneActive` proves uniqueness. |
| `Selection.MapCenter` | src/App.jsx:88-92 | The centre is the selected entry's coordinates when there is one, else the user's position when known, else [37.7749, -122.4194]; it is always one of these three. |
| `Selection.ExactlyOneActive` | src/App.jsx:111 | With a non-empty list and unique ids, exactly one entry is active, and it is the resolved selection. |
| `Finder.FinderState.constructor` | src/App.jsx:60-62 | The initial state has no position, and `selectedId` is the first location's id, or null for an empty list. |
| `Finder.FinderState.Selected` | src/App.jsx:83-86 | In any state, a selection resolves exactly when the location list is non-empty. |
| `Finder.FinderState.Select` | src/App.jsx:115 | A click sets `selectedId` to the id with no check and keeps the position. If the id names a location, that id then resolves. |
| `Finder.FinderState.SetUserPos` | src/App.jsx:70 | A geolocation success records the position and keeps the selection. |
| `Finder.SelectionFollowsId` | src/App.jsx:84 | An id that names a location resolves to an entry with that id, with or without a position: the selection follows the id, not the list position. With unique ids, it resolves to that location with its distance. |
| `Finder.InitiallyFirstSelected` | src/App.jsx:62 | After mounting, the resolved selection is the first location with an unknown distance, and the map is centred on it. |
| `Finder.ExactlyOneActiveEntry` | src/App.jsx:110-111 | In any state with unique ids and at least one location, exactly one rendered entry is highlighted. |
| `Finder.CenterFallback` | src/App.jsx:88-92 | While the list is non-empty, the centre is the selected location's coordinates. The user's position is used only when there are no locations, and [37.7749, -122.4194] is used only when there is no position either. |
| `Finder.NearestFirstScenario` | src/App.jsx:76-92 | In the two-location walk-through with the user on the first location, the ranking is the first then the second. The first location stays selected and centres the map. |
| `DeepLink.IsIOS` | src/App.jsx:36 | The platform test holds exactly when "iPad", "iPhone" or "iPod" occurs at some index of the user agent (case-sensitive); `PlatformChoice` ties the choice of URL to it. |
| `DeepLink.DirectionsUrl` | src/App.jsx:34-48 | The URL starts with the Apple Maps base and `?` on iOS, and with the Google Maps base and `?` elsewhere; `AppleLinkParams` and `GoogleLinkParams` state its exact query fields. |
| `DeepLink.Contains` | src/App.jsx:36 | The substring test returns true exactly when the pattern occurs at some index of the user agent. |
| `DeepLink.PlatformChoice` | src/App.jsx:35-46 | The link is an Apple Maps link exactly when the user agent contains "iPad", "iPhone" or "iPod". |
| `DeepLink.AppleLinkParams` | src/App.jsx:38-41 | On iOS, the URL is the Apple Maps base, then `?`, then exactly the two fields `daddr=` the encoded "lat,lng" and `q=` the encoded address; reading it back gives those values. |
| `DeepLink.GoogleLinkParams` | src/App.jsx:43-46 | Elsewhere, the URL is the Google Maps base, then `?`, then exactly the three fields `api=1`, `destination=` the encoded "lat,lng" and `travelmode=walking`; reading it back gives those values and no `q`, so the address is not sent. |
| `DeepLink.MissingAgentGetsGoogle` | src/App.jsx:35-36 | A browser reporting no user agent is treated as the empty string and gets exactly the Google Maps walking link. |
| `Format.FormatDistance` | src/App.jsx:28-32 | The text is empty exactly when the distance is null; below 1 km it ends in " m", from 1 km in " km". `FormatThenRead` reads the number back. |
| `Format.DistanceLabel` | src/App.jsx:127 | The line ends in " away" exactly when the distance is known. `LabelShowsDistance` states its content. |
| `Format.FormatThenRead` | src/App.jsx:28-32 | Null formats to the empty string. Below 1 km, the text reads back as the rounded metres with unit "m". From 1 km, it reads back as the one-decimal text with unit "km". |
| `Format.LabelShowsDistance` | src/App.jsx:127 | An unknown distance shows the fixed text "Distance unknown". A known one is exactly its formatted distance followed by " away", and that part reads back with a unit. |

## Left out

- `haversineKm` (src/App.jsx:16-26) is a parameter of type `Distance`, because its floating-point trigonometry is not modelled. Only the properties the ranking needs are used, and the scenario lemma states the distances it relies on as requirements.
- `Math.round`, `toFixed`, `encodeURIComponent` and the default number-to-string conversion are opaque fields of `Runtime`, because they are host formatting routines. The deep-link lemmas require only that the encoder never emits `&`, which holds for a percent-encoder.
- JavaScript number semantics (NaN, infinities, and the comparator `a - b` on such values) are not modelled, because distances are treated as reals.
- `window.open` with `noopener,noreferrer` (src/App.jsx:42, 47) is a browser side effect. Only the URL is modelled.
- The geolocation request, its options, and its error banner (src/App.jsx:61, 64-74, 101-107) are asynchronous browser I/O. Only the success path is modelled, as `SetUserPos`.
- React rendering, styles, `Recenter`/`setView`, the Leaflet markers and the icon setup (src/App.jsx:6-14, 51-57, 94-204) are UI and foreign library calls.
- The root `App.jsx` is a static placeholder page with no logic.
- `locations.json` is not part of this model. The location list is an input sequence, and identifiers are integers compared with `==`.
- `useMemo` caching is not modelled: the ranked list and the selection are recomputed from the state on every read, which gives the same values.
