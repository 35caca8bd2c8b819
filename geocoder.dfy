/**
 * The reverse-geocoding fallback of `getAddressFromCoords` (script.js:923-957): two
 * providers tried strictly in order. Neither is called; what each answered is an input,
 * and the coordinates, which only go into the request URLs, are left out with them.
 */
module Geocoder {
  import opened Wrappers
  import opened Strings

  /** A provider's answer: a thrown error, a response that is not `ok`, or the parsed body. */
  datatype Reply<T> = Throws | NotOk | Ok(data: T)

  /** Nominatim's `display_name`, with `""` when the body is `null` or the field is falsy. */
  datatype Place = Place(displayName: string)

  /** BigDataCloud's fields, with `""` for a field that is missing or falsy. */
  datatype Locality = Locality(city: string, principalSubdivision: string, countryName: string)

  /** `city, principalSubdivision, countryName`, as the script composes it. */
  function Compose(l: Locality): (r: string)
    ensures |r| == |l.city| + |l.principalSubdivision| + |l.countryName| + 4
    ensures r[..|l.city|] == l.city
    ensures r[|l.city|..] == ", " + l.principalSubdivision + ", " + l.countryName
  {
    var r := l.city + ", " + l.principalSubdivision + ", " + l.countryName;
    assert r[..|l.city|] == l.city;
    assert r[|l.city|..] == ", " + l.principalSubdivision + ", " + l.countryName;
    r
  }

  /**
   * Read back at its commas, the composed locality gives the three fields in the order
   * city, subdivision, country, each after the first with the separator's space in front.
   */
  lemma ComposeFields(l: Locality)
    requires ',' !in l.city && ',' !in l.principalSubdivision && ',' !in l.countryName
    ensures Split(Compose(l), ',') == [l.city, " " + l.principalSubdivision, " " + l.countryName]
  {
    var sub, country := " " + l.principalSubdivision, " " + l.countryName;
    var tail := sub + [','] + country;
    assert Compose(l) == l.city + [','] + tail;
    SplitAppend(l.city, ',', tail);
    SplitAppend(sub, ',', country);
    SplitWithoutSeparator(l.city, ',');
    SplitWithoutSeparator(sub, ',');
    SplitWithoutSeparator(country, ',');
  }

  predicate FirstUsable(first: Reply<Place>) {
    first.Ok? && first.data.displayName != ""
  }

  predicate SecondUsable(second: Reply<Locality>) {
    second.Ok? && second.data.city != ""
  }

  /**
   * `getAddressFromCoords`: the display name of a usable first answer, else the composed
   * locality of a usable second answer, else `null`; a thrown error or a response that is
   * not `ok` only moves on to the next step.
   */
  function GetAddressFromCoords(first: Reply<Place>, second: Reply<Locality>): (r: Option<string>)
    ensures FirstUsable(first) ==> r == Some(first.data.displayName)
    ensures !FirstUsable(first) && SecondUsable(second) ==> r == Some(Compose(second.data))
    ensures r.None? <==> !FirstUsable(first) && !SecondUsable(second)
    ensures r.Some? ==> r.value != ""
  {
    match first
    case Ok(place) =>
      if place.displayName != "" then Some(place.displayName) else Secondary(second)
    case _ => Secondary(second)
  }

  function Secondary(second: Reply<Locality>): Option<string> {
    match second
    case Ok(locality) => if locality.city != "" then Some(Compose(locality)) else None
    case _ => None
  }

  /** The second provider is not consulted when the first one gives a name. */
  lemma SecondUnusedAfterFirst(first: Reply<Place>, s1: Reply<Locality>, s2: Reply<Locality>)
    requires FirstUsable(first)
    ensures GetAddressFromCoords(first, s1) == GetAddressFromCoords(first, s2)
  {
  }

  /** A failed first provider, whether it threw or was not `ok`, is the same as a nameless one. */
  lemma FailuresAlike(second: Reply<Locality>)
    ensures GetAddressFromCoords(Throws, second) == GetAddressFromCoords(NotOk, second)
    ensures GetAddressFromCoords(NotOk, second) == GetAddressFromCoords(Ok(Place("")), second)
  {
  }
}
