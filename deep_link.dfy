/**
 * The directions hand-off: the platform test on the user-agent string and
 * the Apple Maps or Google Maps URL built around the host's URI-component
 * encoder. Opening the URL in a new browsing context is not modelled; the
 * URL is. A small query-string reader serves as the independent partner:
 * reading the built URL back gives the encoded destination.
 */
module DeepLink {
  import opened Places

  /** `t` occurs in `s` starting at index `i`. */
  ghost predicate OccursAt(s: string, t: string, i: int)
  {
    0 <= i <= |s| - |t| && s[i..i + |t|] == t
  }

  /** `t` occurs in `s` as a contiguous substring. */
  function Contains(s: string, t: string): (r: bool)
    ensures r <==> exists i :: OccursAt(s, t, i)
    decreases |s|
  {
    if |s| < |t| then false
    else if s[..|t|] == t then
      assert OccursAt(s, t, 0);
      true
    else
      OccursShift(s, t);
      Contains(s[1..], t)
  }

  /** When `t` is not a prefix of `s`, it occurs in `s` exactly when it occurs in `s[1..]`. */
  lemma OccursShift(s: string, t: string)
    requires |s| >= |t| && s[..|t|] != t
    ensures (exists i :: OccursAt(s, t, i)) <==> (exists i :: OccursAt(s[1..], t, i))
  {
    if i :| OccursAt(s, t, i) {
      assert i != 0;
      assert s[1..][i - 1..i - 1 + |t|] == s[i..i + |t|];
      assert OccursAt(s[1..], t, i - 1);
    }
    if i :| OccursAt(s[1..], t, i) {
      assert s[1..][i..i + |t|] == s[i + 1..i + 1 + |t|];
      assert OccursAt(s, t, i + 1);
    }
  }

  /** The platform test `/iPad|iPhone|iPod/`: case-sensitive substring search. */
  predicate IsIOS(userAgent: string)
    ensures IsIOS(userAgent) <==>
      (exists i :: OccursAt(userAgent, "iPad", i)) ||
      (exists i :: OccursAt(userAgent, "iPhone", i)) ||
      (exists i :: OccursAt(userAgent, "iPod", i))
  {
    Contains(userAgent, "iPad") || Contains(userAgent, "iPhone") || Contains(userAgent, "iPod")
  }

  const AppleMapsBase: string := "https://maps.apple.com/"
  const GoogleMapsBase: string := "https://www.google.com/maps/dir/"

  /** The destination as `"{lat},{lng}"` with the host's default number formatting. */
  function LatLng(lat: real, lng: real, rt: Runtime): string
  {
    rt.numText(lat) + "," + rt.numText(lng)
  }

  /** The user agent, or the empty string when the browser reports none. */
  function AgentText(userAgent: Option<string>): string
  {
    match userAgent
    case Some(ua) => ua
    case None => ""
  }

  /**
   * The directions URL for a destination: Apple Maps with `daddr` and `q`
   * on iOS-family devices, Google Maps walking directions elsewhere.
   */
  function DirectionsUrl(userAgent: Option<string>, address: string, lat: real, lng: real, rt: Runtime): (r: string)
    ensures IsIOS(AgentText(userAgent)) ==> |r| > |AppleMapsBase| && r[..|AppleMapsBase| + 1] == AppleMapsBase + "?"
    ensures !IsIOS(AgentText(userAgent)) ==> |r| > |GoogleMapsBase| && r[..|GoogleMapsBase| + 1] == GoogleMapsBase + "?"
  {
    var dest := rt.encode(LatLng(lat, lng, rt));
    if IsIOS(AgentText(userAgent)) then
      AppleMapsBase + "?daddr=" + dest + "&q=" + rt.encode(address)
    else
      GoogleMapsBase + "?api=1&destination=" + dest + "&travelmode=walking"
  }

  /** What follows the first `?` of a URL, or the empty string when there is none. */
  function QueryOf(url: string): string
  {
    if url == [] then []
    else if url[0] == '?' then url[1..]
    else QueryOf(url[1..])
  }

  /** The query's `&`-separated fields. */
  function Fields(q: string): (r: seq<string>)
    ensures |r| >= 1
  {
    if q == [] then [""]
    else if q[0] == '&' then [""] + Fields(q[1..])
    else
      var rest := Fields(q[1..]);
      [[q[0]] + rest[0]] + rest[1..]
  }

  /** The value of the first field named `key`. */
  function Lookup(fields: seq<string>, key: string): Option<string>
  {
    if fields == [] then None
    else if |key| + 1 <= |fields[0]| && fields[0][..|key| + 1] == key + "=" then Some(fields[0][|key| + 1..])
    else Lookup(fields[1..], key)
  }

  /** The value of query parameter `key` in `url`, as written (still encoded). */
  function Param(url: string, key: string): Option<string>
  {
    Lookup(Fields(QueryOf(url)), key)
  }

  /** The encoder never emits a field separator, as a percent-encoder does not. */
  ghost predicate EscapesAmpersand(rt: Runtime)
  {
    forall s :: '&' !in rt.encode(s)
  }

  lemma {:induction false} QueryAfterMark(base: string, rest: string)
    requires '?' !in base
    ensures QueryOf(base + "?" + rest) == rest
    decreases |base|
  {
    if base == [] {
      assert base + "?" + rest == ['?'] + rest;
    } else {
      assert (base + "?" + rest)[1..] == base[1..] + "?" + rest;
      QueryAfterMark(base[1..], rest);
    }
  }

  lemma {:induction false} FieldsNoSeparator(a: string)
    requires '&' !in a
    ensures Fields(a) == [a]
    decreases |a|
  {
    if a != [] {
      FieldsNoSeparator(a[1..]);
      assert [a[0]] + a[1..] == a;
    }
  }

  /** A field with no `&` is split off whole. */
  lemma {:induction false} FieldsSplit(a: string, b: string)
    requires '&' !in a
    ensures Fields(a + "&" + b) == [a] + Fields(b)
    decreases |a|
  {
    if a == [] {
      assert a + "&" + b == ['&'] + b;
      assert (['&'] + b)[1..] == b;
    } else {
      assert (a + "&" + b)[1..] == a[1..] + "&" + b;
      FieldsSplit(a[1..], b);
      assert [a[0]] + a[1..] == a;
    }
  }

  lemma BasesHaveNoMark()
    ensures '?' !in AppleMapsBase && '?' !in GoogleMapsBase
  {
    assert forall i :: 0 <= i < |AppleMapsBase| ==> AppleMapsBase[i] != '?';
    assert forall i :: 0 <= i < |GoogleMapsBase| ==> GoogleMapsBase[i] != '?';
  }

  lemma FieldsOfTwo(a: string, b: string)
    requires '&' !in a && '&' !in b
    ensures Fields(a + "&" + b) == [a, b]
  {
    FieldsSplit(a, b);
    FieldsNoSeparator(b);
  }

  lemma FieldsOfThree(a: string, b: string, c: string)
    requires '&' !in a && '&' !in b && '&' !in c
    ensures Fields(a + "&" + b + "&" + c) == [a, b, c]
  {
    assert a + "&" + b + "&" + c == a + "&" + (b + "&" + c);
    FieldsSplit(a, b + "&" + c);
    FieldsOfTwo(b, c);
  }

  /** A field `key=value` whose key is a literal prefix yields `value`. */
  lemma LookupHead(key: string, value: string, rest: seq<string>)
    ensures Lookup([key + "=" + value] + rest, key) == Some(value)
  {
    var f := key + "=" + value;
    assert f[..|key| + 1] == key + "=";
    assert f[|key| + 1..] == value;
  }

  /** The query string of the Apple Maps link. */
  function AppleQuery(dest: string, addr: string): string
  {
    "daddr=" + dest + "&q=" + addr
  }

  /** The query string of the Google Maps link. */
  function GoogleQuery(dest: string): string
  {
    "api=1&destination=" + dest + "&travelmode=walking"
  }

  lemma AppleFields(dest: string, addr: string)
    requires '&' !in dest && '&' !in addr
    ensures Fields(AppleQuery(dest, addr)) == ["daddr=" + dest, "q=" + addr]
  {
    var f1, f2 := "daddr=" + dest, "q=" + addr;
    assert AppleQuery(dest, addr) == f1 + "&" + f2;
    assert forall i :: 0 <= i < |f1| ==> f1[i] != '&';
    assert forall i :: 0 <= i < |f2| ==> f2[i] != '&';
    FieldsOfTwo(f1, f2);
  }

  lemma AppleQueryParams(dest: string, addr: string)
    requires '&' !in dest && '&' !in addr
    ensures Lookup(Fields(AppleQuery(dest, addr)), "daddr") == Some(dest)
    ensures Lookup(Fields(AppleQuery(dest, addr)), "q") == Some(addr)
  {
    var f1, f2 := "daddr" + "=" + dest, "q" + "=" + addr;
    assert AppleQuery(dest, addr) == f1 + "&" + f2;
    assert forall i :: 0 <= i < |f1| ==> f1[i] != '&';
    assert forall i :: 0 <= i < |f2| ==> f2[i] != '&';
    FieldsOfTwo(f1, f2);
    LookupHead("daddr", dest, [f2]);
    assert f1[..2] != "q=";
    LookupHead("q", addr, []);
  }

  lemma GoogleFields(dest: string)
    requires '&' !in dest
    ensures Fields(GoogleQuery(dest)) == ["api=1", "destination=" + dest, "travelmode=walking"]
  {
    var f1, f2, f3 := "api=1", "destination=" + dest, "travelmode=walking";
    assert GoogleQuery(dest) == f1 + "&" + f2 + "&" + f3;
    assert forall i :: 0 <= i < |f2| ==> f2[i] != '&';
    FieldsOfThree(f1, f2, f3);
  }

  lemma GoogleQueryParams(dest: string)
    requires '&' !in dest
    ensures Lookup(Fields(GoogleQuery(dest)), "api") == Some("1")
    ensures Lookup(Fields(GoogleQuery(dest)), "destination") == Some(dest)
    ensures Lookup(Fields(GoogleQuery(dest)), "travelmode") == Some("walking")
    ensures Lookup(Fields(GoogleQuery(dest)), "q") == None
  {
    GoogleFields(dest);
    var f1, f2, f3 := "api=1", "destination=" + dest, "travelmode=walking";
    var fields := [f1, f2, f3];
    assert fields[1..] == [f2, f3] && [f2, f3][1..] == [f3];
    LookupHead("api", "1", [f2, f3]);
    assert "api" + "=" + "1" == f1;
    LookupHead("destination", dest, [f3]);
    assert "destination" + "=" + dest == f2;
    assert Lookup(fields, "destination") == Lookup([f2, f3], "destination");
    LookupHead("travelmode", "walking", []);
    assert "travelmode" + "=" + "walking" == f3;
    assert f2[0] == 'd' && "travelmode="[0] == 't';
    assert f2[..11] != "travelmode=";
    assert Lookup(fields, "travelmode") == Lookup([f2, f3], "travelmode") == Lookup([f3], "travelmode");
    assert f1[..2] != "q=" && f2[..2] != "q=" && f3[..2] != "q=";
    assert Lookup(fields, "q") == Lookup([f2, f3], "q") == Lookup([f3], "q") == Lookup([], "q");
  }

  /**
   * On iOS-family devices the URL is the Apple Maps base, a `?`, and exactly
   * two fields: `daddr`, the encoded coordinate pair, and `q`, the encoded address.
   */
  lemma AppleLinkParams(userAgent: Option<string>, address: string, lat: real, lng: real, rt: Runtime)
    requires IsIOS(AgentText(userAgent))
    requires EscapesAmpersand(rt)
    ensures var url := DirectionsUrl(userAgent, address, lat, lng, rt);
      && url[..|AppleMapsBase| + 1] == AppleMapsBase + "?"
      && Fields(QueryOf(url)) == ["daddr=" + rt.encode(LatLng(lat, lng, rt)), "q=" + rt.encode(address)]
      && Param(url, "daddr") == Some(rt.encode(LatLng(lat, lng, rt)))
      && Param(url, "q") == Some(rt.encode(address))
  {
    var dest, addr := rt.encode(LatLng(lat, lng, rt)), rt.encode(address);
    var url := DirectionsUrl(userAgent, address, lat, lng, rt);
    assert url == AppleMapsBase + "?" + AppleQuery(dest, addr);
    BasesHaveNoMark();
    QueryAfterMark(AppleMapsBase, AppleQuery(dest, addr));
    AppleFields(dest, addr);
    AppleQueryParams(dest, addr);
  }

  /**
   * Elsewhere the URL is the Google Maps base, a `?`, and exactly three
   * fields: `api=1`, `destination`, the encoded coordinate pair, and
   * `travelmode=walking`; the address is not sent.
   */
  lemma GoogleLinkParams(userAgent: Option<string>, address: string, lat: real, lng: real, rt: Runtime)
    requires !IsIOS(AgentText(userAgent))
    requires EscapesAmpersand(rt)
    ensures var url := DirectionsUrl(userAgent, address, lat, lng, rt);
      && url[..|GoogleMapsBase| + 1] == GoogleMapsBase + "?"
      && Fields(QueryOf(url)) == ["api=1", "destination=" + rt.encode(LatLng(lat, lng, rt)), "travelmode=walking"]
      && Param(url, "api") == Some("1")
      && Param(url, "destination") == Some(rt.encode(LatLng(lat, lng, rt)))
      && Param(url, "travelmode") == Some("walking")
      && Param(url, "q") == None
  {
    var dest := rt.encode(LatLng(lat, lng, rt));
    var url := DirectionsUrl(userAgent, address, lat, lng, rt);
    assert url == GoogleMapsBase + "?api=1&destination=" + dest + "&travelmode=walking";
    assert url == GoogleMapsBase + "?" + GoogleQuery(dest);
    BasesHaveNoMark();
    QueryAfterMark(GoogleMapsBase, GoogleQuery(dest));
    GoogleFields(dest);
    GoogleQueryParams(dest);
  }

  /**
   * A browser that reports no user agent is treated as the empty string, so
   * it gets the Google Maps walking link to the encoded coordinate pair.
   */
  lemma MissingAgentGetsGoogle(address: string, lat: real, lng: real, rt: Runtime)
    requires EscapesAmpersand(rt)
    ensures var url := DirectionsUrl(None, address, lat, lng, rt);
      && url[..|GoogleMapsBase| + 1] == GoogleMapsBase + "?"
      && Fields(QueryOf(url)) == ["api=1", "destination=" + rt.encode(LatLng(lat, lng, rt)), "travelmode=walking"]
  {
    assert !IsIOS(AgentText(None));
    GoogleLinkParams(None, address, lat, lng, rt);
  }

  /** A user agent naming an iPhone, iPad or iPod gets the Apple link; any other gets the Google link. */
  lemma PlatformChoice(userAgent: string, address: string, lat: real, lng: real, rt: Runtime)
    ensures var url := DirectionsUrl(Some(userAgent), address, lat, lng, rt);
      url[..|AppleMapsBase|] == AppleMapsBase <==> IsIOS(userAgent)
  {
    var url := DirectionsUrl(Some(userAgent), address, lat, lng, rt);
    if !IsIOS(userAgent) {
      assert url[..|GoogleMapsBase|] == GoogleMapsBase;
      assert url[8] == 'w' && AppleMapsBase[8] == 'm';
    }
  }
}
