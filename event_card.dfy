/** The text decisions of the event card: the short place name and the status wording. */
module EventCard {
  import opened Wrappers
  import opened Text

  /** `s.split(",").map(p => p.trim())`. */
  function TrimmedParts(s: string): (parts: seq<string>)
    ensures |parts| == |Split(s, ',')| && |parts| >= 1
    ensures forall i :: 0 <= i < |parts| ==> parts[i] == Trim(Split(s, ',')[i])
  {
    var raw := Split(s, ',');
    seq(|raw|, i requires 0 <= i < |raw| => Trim(raw[i]))
  }

  /** `/^\d/.test(part)`. */
  predicate StartsWithDigit(part: string) {
    |part| > 0 && IsAsciiDigit(part[0])
  }

  /**
   * The string the place name is taken from: the `text` field of the location
   * when the location parses as JSON with a truthy `text`, otherwise the
   * location itself. `jsonText` is that field as parsing yields it.
   */
  function Extracted(location: string, jsonText: Option<string>): (loc: string)
    ensures jsonText.Some? && jsonText.value != "" ==> loc == jsonText.value
    ensures jsonText.None? || jsonText.value == "" ==> loc == location
    ensures location != "" ==> loc != ""
  {
    if jsonText.Some? && jsonText.value != "" then jsonText.value else location
  }

  /**
   * `getPlaceName(location)`: empty exactly for an empty location, and otherwise
   * the extracted string itself or one of its trimmed comma-separated parts.
   */
  function PlaceName(location: string, jsonText: Option<string>): (name: string)
    ensures name == "" <==> location == ""
    ensures location != "" ==>
      name == Extracted(location, jsonText) || name in TrimmedParts(Extracted(location, jsonText))
  {
    if location == "" then ""
    else
      var loc := Extracted(location, jsonText);
      var parts := TrimmedParts(loc);
      if |parts| > 1 && StartsWithDigit(parts[0]) then
        (if parts[1] != "" then parts[1] else parts[0])
      else if parts[0] != "" then parts[0]
      else loc
  }

  /** A trimmed comma-separated part has no comma and no whitespace at either end. */
  predicate IsCleanPart(p: string) {
    ',' !in p && (p == [] || (!IsJsWhitespace(p[0]) && !IsJsWhitespace(p[|p| - 1])))
  }

  lemma TrimmedPartsClean(s: string)
    ensures forall i :: 0 <= i < |TrimmedParts(s)| ==> IsCleanPart(TrimmedParts(s)[i])
  {
    SplitPartsFree(s, ',');
    forall i | 0 <= i < |TrimmedParts(s)|
      ensures IsCleanPart(TrimmedParts(s)[i])
    {
      TrimKeepsAbsent(Split(s, ',')[i], ',');
    }
  }

  /**
   * The place name is empty exactly when the location is; otherwise it is one
   * clean comma-separated part of the extracted string, or that whole string
   * when its first part is blank.
   */
  lemma PlaceNameShape(location: string, jsonText: Option<string>)
    ensures PlaceName(location, jsonText) == "" <==> location == ""
    ensures location != "" ==>
      var loc := Extracted(location, jsonText);
      PlaceName(location, jsonText) == loc
      || (IsCleanPart(PlaceName(location, jsonText)) && PlaceName(location, jsonText) in TrimmedParts(loc))
  {
    if location != "" {
      TrimmedPartsClean(Extracted(location, jsonText));
    }
  }

  /**
   * Street-address rule: when the first part starts with a digit and there is a
   * second part, the second part is the name (the first when the second is blank);
   * otherwise the first part is, and when that part is blank the whole
   * extracted string is.
   */
  lemma PlaceNameStreetAddress(location: string, jsonText: Option<string>)
    requires location != ""
    ensures var parts := TrimmedParts(Extracted(location, jsonText));
      && (|parts| > 1 && StartsWithDigit(parts[0]) ==>
            PlaceName(location, jsonText) == (if parts[1] != "" then parts[1] else parts[0]))
      && (!(|parts| > 1 && StartsWithDigit(parts[0])) && parts[0] != "" ==>
            PlaceName(location, jsonText) == parts[0])
      && (!(|parts| > 1 && StartsWithDigit(parts[0])) && parts[0] == "" ==>
            PlaceName(location, jsonText) == Extracted(location, jsonText))
  {
  }

  /**
   * A two-part address whose first part starts with a digit is named by its
   * trimmed second part.
   */
  lemma {:induction false} TwoPartStreetAddress(street: string, place: string)
    requires ',' !in street && ',' !in place
    requires StartsWithDigit(Trim(street)) && Trim(place) != ""
    ensures PlaceName(street + "," + place, None) == Trim(place)
  {
    var loc := street + "," + place;
    SplitAfterHead(street, ',', place);
    SplitWithoutSep(place, ',');
    assert Split(loc, ',') == [street, place];
    assert TrimmedParts(loc) == [Trim(street), Trim(place)];
  }

  /** A location without commas is named by itself, trimmed, unless it is blank. */
  lemma {:induction false} SinglePartName(location: string)
    requires ',' !in location && Trim(location) != ""
    ensures PlaceName(location, None) == Trim(location)
  {
    SplitWithoutSep(location, ',');
    assert TrimmedParts(location) == [Trim(location)];
  }

  // ---------------------------------------------------------------------------
  // Status badge and participant count
  // ---------------------------------------------------------------------------

  /** The status badge: upcoming and started by name, every other value as finished. */
  function StatusLabel(status: string): (badge: string)
    ensures badge in {"Upcoming", "Started", "Finished"}
    ensures badge == "Upcoming" <==> status == "upcoming"
    ensures badge == "Started" <==> status == "started"
  {
    if status == "upcoming" then "Upcoming" else if status == "started" then "Started" else "Finished"
  }

  /** The participant word classifies statuses exactly as the badge does. */
  function ParticipantWord(status: string): (word: string)
    ensures word == "going" <==> StatusLabel(status) == "Upcoming"
    ensures word == "attending" <==> StatusLabel(status) == "Started"
    ensures word == "attended" <==> StatusLabel(status) == "Finished"
  {
    if status == "upcoming" then "going" else if status == "started" then "attending" else "attended"
  }

  /** `event.participants[0]?.count || 0`: the first row's count, or 0 when absent or zero. */
  function ParticipantCount(counts: seq<Option<int>>): (n: int)
    ensures counts == [] || counts[0].None? ==> n == 0
    ensures counts != [] && counts[0].Some? ==> n == counts[0].value
  {
    if counts != [] && counts[0].Some? && counts[0].value != 0 then counts[0].value else 0
  }
}
