/**
 * The geocoding endpoint's local lookup: a fixed table of campus and city
 * places searched by exact key and then by substring, in declaration order.
 * The remote geocoder is an input of the endpoint, not modelled.
 */
module Geocode {
  import opened Wrappers
  import opened Text

  /** A coordinate pair, carried around but never computed with. */
  datatype Coords = Coords(lat: real, lng: real)

  datatype Entry = Entry(key: string, coords: Coords)

  const KaistCoords: Coords := Coords(36.3735, 127.3661)

  /** `KAIST_LOCATIONS`, in declaration order. */
  const KaistLocations: seq<Entry> := [
    Entry("kaist", KaistCoords),
    Entry("kaist campus", KaistCoords),
    Entry("kaist university", KaistCoords),
    Entry("daejeon", Coords(36.3504, 127.3845)),
    Entry("yuseong", Coords(36.3621, 127.3567)),
    Entry("yuseong-gu", Coords(36.3621, 127.3567)),
    Entry("seoul", Coords(37.5665, 126.978)),
    Entry("seoul station", Coords(37.5547, 126.9706)),
    Entry("gangnam", Coords(37.4979, 127.0276)),
    Entry("hongdae", Coords(37.5506, 126.922)),
    Entry("myeongdong", Coords(37.5636, 126.9824))
  ]

  /**
   * `location.toLowerCase().trim()`: a slice of the lower-cased input with only
   * whitespace cut from either end; no capital and no whitespace end survives.
   */
  function CleanLocation(location: string): (clean: string)
    ensures |clean| <= |location|
    ensures forall i :: 0 <= i < |clean| ==> !IsAsciiUpper(clean[i])
    ensures clean == [] || (!IsJsWhitespace(clean[0]) && !IsJsWhitespace(clean[|clean| - 1]))
    ensures exists a, b ::
              && 0 <= a <= b <= |location| && clean == ToLowerAscii(location)[a..b]
              && (forall j :: 0 <= j < a ==> IsJsWhitespace(location[j]))
              && (forall j :: b <= j < |location| ==> IsJsWhitespace(location[j]))
  {
    CleanNoCapitals(location);
    CleanSlice(location);
    Trim(ToLowerAscii(location))
  }

  /** Trimming the lower-cased input leaves no capital. */
  lemma CleanNoCapitals(location: string)
    ensures forall i :: 0 <= i < |Trim(ToLowerAscii(location))| ==> !IsAsciiUpper(Trim(ToLowerAscii(location))[i])
  {
    var lowered := ToLowerAscii(location);
    var a, b :| 0 <= a <= b <= |lowered| && Trim(lowered) == lowered[a..b];
    forall i | 0 <= i < |Trim(lowered)|
      ensures !IsAsciiUpper(Trim(lowered)[i])
    {
      assert Trim(lowered)[i] == lowered[a + i];
    }
  }

  /** Lower-casing does not make whitespace, so what trim cuts was whitespace in the input. */
  lemma CleanSlice(location: string)
    ensures exists a, b ::
              && 0 <= a <= b <= |location| && Trim(ToLowerAscii(location)) == ToLowerAscii(location)[a..b]
              && (forall j :: 0 <= j < a ==> IsJsWhitespace(location[j]))
              && (forall j :: b <= j < |location| ==> IsJsWhitespace(location[j]))
  {
    var lowered := ToLowerAscii(location);
    var a, b :| && 0 <= a <= b <= |lowered| && Trim(lowered) == lowered[a..b]
                && (forall j :: 0 <= j < a ==> IsJsWhitespace(lowered[j]))
                && (forall j :: b <= j < |lowered| ==> IsJsWhitespace(lowered[j]));
    forall j | 0 <= j < a
      ensures IsJsWhitespace(location[j])
    {
      assert IsJsWhitespace(lowered[j]);
    }
    forall j | b <= j < |location|
      ensures IsJsWhitespace(location[j])
    {
      assert IsJsWhitespace(lowered[j]);
    }
  }

  /** The partial-match test: either string includes the other. */
  predicate Related(clean: string, key: string) {
    Contains(clean, key) || Contains(key, clean)
  }

  /** Position of the first entry whose key is exactly `clean`, or `|table|` if none. */
  function ExactIndex(clean: string, table: seq<Entry>): (k: nat)
    ensures k <= |table|
    ensures forall j :: 0 <= j < k ==> table[j].key != clean
    ensures k < |table| ==> table[k].key == clean
    decreases |table|
  {
    if table == [] then 0
    else if table[0].key == clean then 0
    else 1 + ExactIndex(clean, table[1..])
  }

  /** Position of the first entry whose key is related to `clean`, or `|table|` if none. */
  function FirstRelatedIndex(clean: string, table: seq<Entry>): (k: nat)
    ensures k <= |table|
    ensures forall j :: 0 <= j < k ==> !Related(clean, table[j].key)
    ensures k < |table| ==> Related(clean, table[k].key)
    decreases |table|
  {
    if table == [] then 0
    else if Related(clean, table[0].key) then 0
    else 1 + FirstRelatedIndex(clean, table[1..])
  }

  /**
   * `findLocationInMap(location)`, looking at the table's own keys only: an
   * answer is always the coordinates of a key related to the cleaned input, and
   * there is none exactly when no key is related.
   */
  function FindLocationInMap(location: string): (r: Option<Coords>)
    ensures r.None? <==>
      forall j :: 0 <= j < |KaistLocations| ==> !Related(CleanLocation(location), KaistLocations[j].key)
    ensures r.Some? ==> exists j ::
              && 0 <= j < |KaistLocations|
              && Related(CleanLocation(location), KaistLocations[j].key)
              && r.value == KaistLocations[j].coords
  {
    var clean := CleanLocation(location);
    var e := ExactIndex(clean, KaistLocations);
    if e < |KaistLocations| then
      ContainsSelf(clean);
      assert Related(clean, KaistLocations[e].key);
      Some(KaistLocations[e].coords)
    else
      var k := FirstRelatedIndex(clean, KaistLocations);
      if k < |KaistLocations| then Some(KaistLocations[k].coords) else None
  }

  /** No two entries share a key, so an exact match names one entry. */
  lemma KeysDistinct()
    ensures forall i, j :: 0 <= i < j < |KaistLocations| ==> KaistLocations[i].key != KaistLocations[j].key
  {
  }

  /** An exact key match returns that key's entry. */
  lemma ExactMatchWins(location: string, i: nat)
    requires i < |KaistLocations| && CleanLocation(location) == KaistLocations[i].key
    ensures FindLocationInMap(location) == Some(KaistLocations[i].coords)
  {
    KeysDistinct();
    assert ExactIndex(CleanLocation(location), KaistLocations) == i;
  }

  /**
   * Without an exact match the answer is the first related entry in declaration
   * order, and there is no answer exactly when no key is related either way.
   */
  lemma PartialMatchFirst(location: string)
    ensures var clean := CleanLocation(location);
      && (FindLocationInMap(location).None? <==>
            forall j :: 0 <= j < |KaistLocations| ==> !Related(clean, KaistLocations[j].key))
      && (ExactIndex(clean, KaistLocations) == |KaistLocations| && FindLocationInMap(location).Some? ==>
            exists k :: 0 <= k < |KaistLocations|
              && Related(clean, KaistLocations[k].key)
              && FindLocationInMap(location) == Some(KaistLocations[k].coords)
              && forall j :: 0 <= j < k ==> !Related(clean, KaistLocations[j].key))
  {
    var clean := CleanLocation(location);
    var e := ExactIndex(clean, KaistLocations);
    if e < |KaistLocations| {
      ContainsSelf(clean);
      assert Related(clean, KaistLocations[e].key);
    } else {
      var k := FirstRelatedIndex(clean, KaistLocations);
      assert FindLocationInMap(location) == if k < |KaistLocations| then Some(KaistLocations[k].coords) else None;
    }
  }

  /** Input that is only whitespace cleans to "" and so matches the first entry, `kaist`. */
  lemma BlankMatchesKaist(location: string)
    requires forall j :: 0 <= j < |location| ==> IsJsWhitespace(location[j])
    ensures FindLocationInMap(location) == Some(KaistCoords)
  {
    var lowered := ToLowerAscii(location);
    assert forall j :: 0 <= j < |lowered| ==> IsJsWhitespace(lowered[j]);
    TrimAllWhitespace(lowered);
    ContainsEmpty("kaist");
    assert Related("", KaistLocations[0].key);
  }

  /** A string with no capitals and no whitespace at its ends is its own cleaned form. */
  lemma CleanIdentity(s: string)
    requires forall i :: 0 <= i < |s| ==> !IsAsciiUpper(s[i])
    requires s == [] || (!IsJsWhitespace(s[0]) && !IsJsWhitespace(s[|s| - 1]))
    ensures CleanLocation(s) == s
  {
  }

  /** Lower-casing the input or padding it with whitespace does not change its cleaned form. */
  lemma CleanIgnoresCaseAndPadding(location: string, pre: string, post: string)
    requires forall j :: 0 <= j < |pre| ==> IsJsWhitespace(pre[j])
    requires forall j :: 0 <= j < |post| ==> IsJsWhitespace(post[j])
    ensures CleanLocation(pre + location + post) == CleanLocation(location)
    ensures CleanLocation(ToLowerAscii(location)) == CleanLocation(location)
  {
    ToLowerAsciiIdempotent(location);
    ToLowerAsciiPadded(pre, location, post);
    TrimPadded(pre, ToLowerAscii(location), post);
  }

  /** The answer depends on the input only through its cleaned form. */
  lemma LookupByCleanForm(x: string, y: string)
    requires CleanLocation(x) == CleanLocation(y)
    ensures FindLocationInMap(x) == FindLocationInMap(y)
  {
  }

  /**
   * The lookup ignores ASCII letter case and whitespace around the input:
   * lower-casing it or padding it with whitespace does not change the answer.
   */
  lemma LookupIgnoresCaseAndPadding(location: string, pre: string, post: string)
    requires forall j :: 0 <= j < |pre| ==> IsJsWhitespace(pre[j])
    requires forall j :: 0 <= j < |post| ==> IsJsWhitespace(post[j])
    ensures FindLocationInMap(pre + location + post) == FindLocationInMap(location)
    ensures FindLocationInMap(ToLowerAscii(location)) == FindLocationInMap(location)
  {
    CleanIgnoresCaseAndPadding(location, pre, post);
    LookupByCleanForm(pre + location + post, location);
    LookupByCleanForm(ToLowerAscii(location), location);
  }

  /** Exact matching comes first: "seoul station" is not answered with the earlier "seoul". */
  lemma ExactBeforePartial()
    ensures FindLocationInMap("seoul station") == Some(Coords(37.5547, 126.9706))
    ensures Related("seoul station", "seoul")
  {
    CleanIdentity("seoul station");
    ExactMatchWins("seoul station", 7);
    SeoulStationContainsSeoul();
  }

  lemma SeoulStationContainsSeoul()
    ensures Contains("seoul station", "seoul")
  {
    assert StartsWith("seoul station", "seoul");
  }

  // ---------------------------------------------------------------------------
  // The lookup as written: indexing a plain object literal
  // ---------------------------------------------------------------------------

  /**
   * The members every plain object inherits from `Object.prototype` that a
   * cleaned location can name; each holds a truthy value. The others
   * (`toString`, `valueOf`, `hasOwnProperty`, `__defineGetter__`, ...) carry a
   * capital letter, which cleaning never leaves (see `CamelCasedUnreachable`).
   */
  const ObjectPrototypeMembers: set<string> := {"constructor", "__proto__"}

  /** A name with a capital letter is never the cleaned form of any input. */
  lemma CamelCasedUnreachable(location: string, name: string, i: nat)
    requires i < |name| && IsAsciiUpper(name[i])
    ensures CleanLocation(location) != name
  {
  }

  /** What `KAIST_LOCATIONS[clean]` can yield when truthy. */
  datatype Hit = OwnEntry(coords: Coords) | PrototypeMember(name: string)

  /**
   * `findLocationInMap` as the code reads: the direct index also finds inherited
   * members of the object literal, whose values are functions or objects, not coordinates.
   */
  function FindLocationInMapAsWritten(location: string): Option<Hit> {
    var clean := CleanLocation(location);
    var e := ExactIndex(clean, KaistLocations);
    if e < |KaistLocations| then Some(OwnEntry(KaistLocations[e].coords))
    else if clean in ObjectPrototypeMembers then Some(PrototypeMember(clean))
    else
      var k := FirstRelatedIndex(clean, KaistLocations);
      if k < |KaistLocations| then Some(OwnEntry(KaistLocations[k].coords)) else None
  }

  /** No key of the table is an inherited member name. */
  lemma KeysNotInherited()
    ensures forall j :: 0 <= j < |KaistLocations| ==> KaistLocations[j].key !in ObjectPrototypeMembers
  {
  }

  /** Any input that cleans to an inherited member name is answered with that member. */
  lemma PrototypeNamesHit(location: string)
    requires CleanLocation(location) in ObjectPrototypeMembers
    ensures FindLocationInMapAsWritten(location) == Some(PrototypeMember(CleanLocation(location)))
  {
    KeysNotInherited();
  }

  /**
   * The discrepancy: "constructor" relates to no key, so the lookup should give
   * null, yet as written it answers with the inherited `Object` constructor.
   */
  lemma ConstructorHitsPrototype(location: string)
    requires location == "constructor"
    ensures FindLocationInMapAsWritten(location) == Some(PrototypeMember("constructor"))
    ensures FindLocationInMap(location) == None
  {
    CleanIdentity(location);
    PrototypeNamesHit(location);
    ConstructorUnrelated(location);
    PartialMatchFirst(location);
  }

  /** Every key has a character "constructor" lacks; the long keys lack one of its characters. */
  lemma ConstructorUnrelated(location: string)
    requires location == "constructor"
    ensures forall j :: 0 <= j < |KaistLocations| ==> !Related(location, KaistLocations[j].key)
  {
    KeyCharactersMissing(location);
    LocationCharactersMissing(location);
    UnrelatedByCharacters(location, KaistLocations, "kkkdyyeeghm", "coccccccccc");
  }

  lemma KeyCharactersMissing(location: string)
    requires location == "constructor"
    ensures forall j :: 0 <= j < |KaistLocations| ==>
      "kkkdyyeeghm"[j] in KaistLocations[j].key && "kkkdyyeeghm"[j] !in location
  {
  }

  lemma LocationCharactersMissing(location: string)
    requires location == "constructor"
    ensures forall j :: 0 <= j < |KaistLocations| ==>
      |KaistLocations[j].key| < |location|
      || ("coccccccccc"[j] in location && "coccccccccc"[j] !in KaistLocations[j].key)
  {
  }

  /**
   * `s` is related to no key when each key has a character `s` lacks and each
   * key at least as long as `s` lacks a character of `s`.
   */
  lemma UnrelatedByCharacters(s: string, table: seq<Entry>, inKeyOnly: string, inSOnly: string)
    requires |inKeyOnly| == |table| && |inSOnly| == |table|
    requires forall j :: 0 <= j < |table| ==>
      && inKeyOnly[j] in table[j].key && inKeyOnly[j] !in s
      && (|table[j].key| < |s| || (inSOnly[j] in s && inSOnly[j] !in table[j].key))
    ensures forall j :: 0 <= j < |table| ==> !Related(s, table[j].key)
  {
    forall j | 0 <= j < |table|
      ensures !Related(s, table[j].key)
    {
      if Contains(s, table[j].key) {
        ContainsChars(s, table[j].key);
      }
      if Contains(table[j].key, s) {
        ContainsChars(table[j].key, s);
      }
    }
  }

  /** Apart from the inherited names, the as-written lookup and the corrected one agree. */
  lemma AsWrittenAgreesOffPrototype(location: string)
    requires CleanLocation(location) !in ObjectPrototypeMembers
    ensures FindLocationInMapAsWritten(location).None? <==> FindLocationInMap(location).None?
    ensures FindLocationInMap(location).Some? ==>
      FindLocationInMapAsWritten(location) == Some(OwnEntry(FindLocationInMap(location).value))
  {
  }

  // ---------------------------------------------------------------------------
  // GET /api/geocode?location=...
  // ---------------------------------------------------------------------------

  /** The outcome of the remote geocoding request, an input of the endpoint. */
  datatype Remote =
    | RemoteHit(coords: Coords, displayName: string)
    | RemoteEmpty
    | RemoteFailed(message: string)

  datatype Source = LocalDatabase | Nominatim | Fallback | ErrorFallback(details: string)

  datatype Response =
    | MissingLocation
    | Located(coords: Coords, displayName: string, source: Source)

  /** The HTTP status of each response: every located answer is a success. */
  function Status(r: Response): int {
    if r.MissingLocation? then 400 else 200
  }

  /** The answer once the table has no entry: the remote hit, or KAIST as a fallback. */
  function RemoteAnswer(location: string, remote: Remote): (r: Response)
    ensures r.Located? && (r.source.Nominatim? <==> remote.RemoteHit?)
    ensures !remote.RemoteHit? ==> r.coords == KaistCoords && r.displayName == location
  {
    match remote
    case RemoteHit(c, name) => Located(c, name, Nominatim)
    case RemoteEmpty => Located(KaistCoords, location, Fallback)
    case RemoteFailed(message) => Located(KaistCoords, location, ErrorFallback(message))
  }

  /** `GET`, with the corrected lookup: `location` is the query parameter, absent or present. */
  function Get(location: Option<string>, remote: Remote): (r: Response)
    ensures Status(r) == 400 <==> location.None? || location.value == ""
    ensures location.Some? && location.value != "" && FindLocationInMap(location.value).Some? ==>
      r == Located(FindLocationInMap(location.value).value, location.value, LocalDatabase)
    ensures r.Located? && r.source != Nominatim ==> r.displayName == location.value
    ensures r.Located? && r.source.Nominatim? ==> remote.RemoteHit? && FindLocationInMap(location.value).None?
  {
    if location.None? || location.value == "" then MissingLocation
    else
      match FindLocationInMap(location.value)
      case Some(c) => Located(c, location.value, LocalDatabase)
      case None => RemoteAnswer(location.value, remote)
  }

  /**
   * What `GET` answers as written: a direct hit on an inherited member is served
   * as a local answer whose "coordinates" are that member, not a coordinate pair.
   */
  datatype AnswerAsWritten = Answer(response: Response) | LocalWithoutCoords(member: string, displayName: string)

  /** `GET` over the lookup as written. */
  function GetAsWritten(location: Option<string>, remote: Remote): (r: AnswerAsWritten)
    ensures location.None? || location.value == "" ==> r == Answer(MissingLocation)
    ensures location.Some? && location.value != "" && CleanLocation(location.value) in ObjectPrototypeMembers ==>
      r == LocalWithoutCoords(CleanLocation(location.value), location.value)
  {
    if location.None? || location.value == "" then Answer(MissingLocation)
    else
      KeysNotInherited();
      match FindLocationInMapAsWritten(location.value)
      case Some(PrototypeMember(name)) => LocalWithoutCoords(name, location.value)
      case Some(OwnEntry(c)) => Answer(Located(c, location.value, LocalDatabase))
      case None => Answer(RemoteAnswer(location.value, remote))
  }

  /** Away from the inherited names, the endpoint as written answers as the corrected one does. */
  lemma GetAsWrittenAgreesOffPrototype(location: Option<string>, remote: Remote)
    requires location.Some? ==> CleanLocation(location.value) !in ObjectPrototypeMembers
    ensures GetAsWritten(location, remote) == Answer(Get(location, remote))
  {
    if location.Some? && location.value != "" {
      AsWrittenAgreesOffPrototype(location.value);
    }
  }

  /**
   * `?location=constructor` is served from the "local database" without
   * coordinates as written, where the corrected endpoint falls through to the
   * remote geocoder.
   */
  lemma ConstructorServedLocally(location: string, remote: Remote)
    requires CleanLocation(location) == "constructor"
    ensures GetAsWritten(Some(location), remote) == LocalWithoutCoords("constructor", location)
    ensures Get(Some(location), remote).Located? && Get(Some(location), remote).source != LocalDatabase
  {
    ConstructorUnrelated(CleanLocation(location));
    assert FindLocationInMap(location).None?;
    GetWithoutLocalHit(location, remote);
  }

  /** Without a table entry the endpoint answers from the remote geocoder or its fallbacks. */
  lemma GetWithoutLocalHit(location: string, remote: Remote)
    requires location != "" && FindLocationInMap(location).None?
    ensures Get(Some(location), remote) == RemoteAnswer(location, remote)
  {
  }
}
