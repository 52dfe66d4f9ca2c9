/**
 * Display of distances: metres below one kilometre, kilometres with one
 * decimal from one kilometre up, nothing when the distance is unknown. The
 * host's rounding and number formatting are opaque; the unit and the text
 * around the number are modelled exactly. `ReadDistance` reads a display
 * string back into its number text and unit.
 */
module Format {
  import opened Places

  datatype Unit = Metres | Kilometres

  /** The display text for a distance in kilometres: empty exactly when the distance is unknown. */
  function FormatDistance(km: Option<real>, rt: Runtime): (r: string)
    ensures r == [] <==> km.None?
    ensures km.Some? && km.value < 1.0 ==> EndsWith(r, " m")
    ensures km.Some? && km.value >= 1.0 ==> EndsWith(r, " km")
  {
    match km
    case None => ""
    case Some(k) =>
      if k < 1.0 then rt.numText(rt.round(k * 1000.0)) + " m"
      else rt.toFixed1(k) + " km"
  }

  /** The list item's distance line; it ends with " away" exactly when the distance is known. */
  function DistanceLabel(e: Entry, rt: Runtime): (r: string)
    ensures EndsWith(r, " away") <==> e.km.Some?
  {
    if e.km.Some? then FormatDistance(e.km, rt) + " away" else "Distance unknown"
  }

  /** `s` ends with `suffix`. */
  predicate EndsWith(s: string, suffix: string)
  {
    |suffix| <= |s| && s[|s| - |suffix|..] == suffix
  }

  /** Splits a display string into its number text and unit; None when it names no unit. */
  function ReadDistance(text: string): Option<(string, Unit)>
  {
    if EndsWith(text, " km") then Some((text[..|text| - 3], Kilometres))
    else if EndsWith(text, " m") then Some((text[..|text| - 2], Metres))
    else None
  }

  /**
   * Reading a formatted distance back gives the unit the threshold chose and
   * the host's number text unchanged; an unknown distance reads as nothing.
   */
  lemma FormatThenRead(km: Option<real>, rt: Runtime)
    ensures km.None? ==> FormatDistance(km, rt) == "" && ReadDistance(FormatDistance(km, rt)) == None
    ensures km.Some? && km.value < 1.0 ==>
      ReadDistance(FormatDistance(km, rt)) == Some((rt.numText(rt.round(km.value * 1000.0)), Metres))
    ensures km.Some? && km.value >= 1.0 ==>
      ReadDistance(FormatDistance(km, rt)) == Some((rt.toFixed1(km.value), Kilometres))
  {
    var text := FormatDistance(km, rt);
    if km.Some? {
      var k := km.value;
      if k < 1.0 {
        var n := rt.numText(rt.round(k * 1000.0));
        assert text == n + " m";
        assert text[|text| - 2..] == " m";
        assert text[|text| - 2] == ' ';
        assert !EndsWith(text, " km");
        assert text[..|text| - 2] == n;
      } else {
        var n := rt.toFixed1(k);
        assert text == n + " km";
        assert text[|text| - 3..] == " km";
        assert text[..|text| - 3] == n;
      }
    }
  }

  /** A known distance's line is its formatted text, which reads back with a unit, then " away"; an unknown one is the fixed text. */
  lemma LabelShowsDistance(e: Entry, rt: Runtime)
    ensures e.km.None? <==> DistanceLabel(e, rt) == "Distance unknown"
    ensures e.km.Some? ==> EndsWith(DistanceLabel(e, rt), " away")
    ensures e.km.Some? ==> DistanceLabel(e, rt)[..|DistanceLabel(e, rt)| - 5] == FormatDistance(e.km, rt)
    ensures e.km.Some? ==> ReadDistance(DistanceLabel(e, rt)[..|DistanceLabel(e, rt)| - 5]) == ReadDistance(FormatDistance(e.km, rt)) != None
  {
    if e.km.Some? {
      var text := FormatDistance(e.km, rt);
      var line := DistanceLabel(e, rt);
      assert line == text + " away";
      assert line[..|line| - 5] == text;
      FormatThenRead(e.km, rt);
      assert line[|line| - 1] == 'y';
    }
  }
}
