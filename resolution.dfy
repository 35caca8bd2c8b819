/**
 * The decision logic of `extractCoordinatesFromURL` (script.js:803-858): trim the URL,
 * expand it when it is a short link, extract the coordinates, reverse-geocode them, and
 * write the coordinate and address fields, with the message the script shows. The form
 * fields are values here and the services' answers are inputs.
 */
module Resolution {
  import opened Wrappers
  import opened Strings
  import opened Decimals
  import opened Extraction
  import opened ShortLinks
  import opened Geocoder

  /** The message each outcome shows. */
  datatype Toast =
    | EnterUrl            // "Please enter a Google Maps URL"
    | NoCoordinates       // "Could not find coordinates in this URL"
    | Extracted           // coordinates and address extracted
    | ExtractedNoAddress  // coordinates extracted, address not available
    | ProcessingError     // the catch block: "Error processing URL"

  /** The coordinate and address inputs of the form. */
  datatype Fields = Fields(coordinates: string, address: string)

  datatype Outcome = Outcome(fields: Fields, toast: Toast)

  /** `parseFloat(t).toFixed(6)` for a text that starts with a numeral `-?\d+\.\d+`. */
  function Refix(t: string): (r: string)
    ensures NumberAt(t, 0).Some? ==> IsFixed6(r)
  {
    match NumberAt(t, 0)
    case Some((d, _)) => ToFixed6(d)
    case None => "NaN"
  }

  /** Step 1: the URL, expanded when it is a short link. */
  function ExpandIfShort(url: string, primary: PrimaryReply, proxy: ProxyReply): (r: string)
    ensures !IsShortUrl(url) ==> r == url
  {
    if IsShortUrl(url) then ExpandShortUrl(url, primary, proxy) else url
  }

  /**
   * `extractCoordinatesFromURL`: nothing changes for an empty URL; otherwise the URL is
   * expanded when short, the coordinates are extracted and geocoded, and `Decide` writes
   * the fields.
   */
  function ResolveUrl(urlField: string, fields: Fields, primary: PrimaryReply, proxy: ProxyReply,
                      first: Reply<Place>, second: Reply<Locality>): (o: Outcome)
    ensures Trim(urlField) == "" ==> o == Outcome(fields, EnterUrl)
    ensures o.toast == NoCoordinates ==> o.fields == fields
    ensures o.toast == Extracted || o.toast == ExtractedNoAddress ==>
      Extract(ExpandIfShort(Trim(urlField), primary, proxy)) == Some(o.fields.coordinates)
    ensures o.toast == Extracted ==> GetAddressFromCoords(first, second) == Some(o.fields.address)
  {
    var url := Trim(urlField);
    if url == "" then Outcome(fields, EnterUrl)
    else Decide(fields, Extract(ExpandIfShort(url, primary, proxy)), GetAddressFromCoords(first, second))
  }

  /**
   * Steps 2 and 3 once the extraction and the geocoding have answered: without
   * coordinates nothing changes; with them the coordinate field gets them, and the address
   * field the address, or `Location at lat, lng` with each half re-parsed and re-printed.
   * Only that placeholder needs the second half: when the text has no comma, `lng` is
   * `undefined` and `lng.toFixed` throws into the catch block.
   */
  function Decide(fields: Fields, coordinates: Option<string>, address: Option<string>): (o: Outcome)
    ensures coordinates.None? <==> o.toast == NoCoordinates
    ensures coordinates.None? ==> o.fields == fields
    ensures coordinates.Some? ==> o.fields.coordinates == coordinates.value
    ensures o.toast == Extracted <==> coordinates.Some? && address.Some? && address.value != ""
    ensures o.toast == Extracted ==> address == Some(o.fields.address)
    ensures o.toast == ProcessingError <==>
      coordinates.Some? && !(address.Some? && address.value != "") && |Split(coordinates.value, ',')| < 2
    ensures o.toast == ProcessingError ==> o.fields == fields.(coordinates := coordinates.value)
  {
    if coordinates.None? then Outcome(fields, NoCoordinates)
    else if address.Some? && address.value != "" then
      Outcome(Fields(coordinates.value, address.value), Extracted)
    else
      var parts := Split(coordinates.value, ',');
      if |parts| < 2 then
        Outcome(fields.(coordinates := coordinates.value), ProcessingError)
      else
        var lat, lng := Refix(Trim(parts[0])), Refix(Trim(parts[1]));
        Outcome(Fields(coordinates.value, "Location at " + lat + ", " + lng), ExtractedNoAddress)
  }

  /** The expansion services are consulted only for short links. */
  lemma ExpansionOnlyWhenShort(urlField: string, fields: Fields, p1: PrimaryReply, x1: ProxyReply,
                               p2: PrimaryReply, x2: ProxyReply, first: Reply<Place>, second: Reply<Locality>)
    requires !IsShortUrl(Trim(urlField))
    ensures ResolveUrl(urlField, fields, p1, x1, first, second) == ResolveUrl(urlField, fields, p2, x2, first, second)
  {
    var url := Trim(urlField);
    assert ExpandIfShort(url, p1, x1) == ExpandIfShort(url, p2, x2);
  }

  /** A rendered pair never reaches the catch block, and its placeholder is the pair re-printed. */
  lemma DecideRendered(fields: Fields, c: Coordinate, address: Option<string>)
    requires ValidCoordinate(c)
    ensures var o := Decide(fields, Some(Render(c)), address);
      && o.toast != ProcessingError
      && (o.toast == ExtractedNoAddress ==>
            o.fields.address == "Location at " + Signless(ToFixed6(c.lat)) + ", " + Signless(ToFixed6(c.lng)))
  {
    var text := Render(c);
    SplitRendered(c);
    DecideSplit(fields, text, address);
  }

  /** `Decide` on a text with at least two comma-separated parts. */
  lemma DecideSplit(fields: Fields, text: string, address: Option<string>)
    requires |Split(text, ',')| >= 2
    ensures var parts := Split(text, ',');
      var o := Decide(fields, Some(text), address);
      && o.toast != ProcessingError
      && (o.toast == ExtractedNoAddress ==>
            o.fields.address == "Location at " + Refix(Trim(parts[0])) + ", " + Refix(Trim(parts[1])))
  {
  }

  /** Which outcome happens, in terms of the steps' results; the catch block is unreachable. */
  lemma OutcomeCases(urlField: string, fields: Fields, primary: PrimaryReply, proxy: ProxyReply,
                     first: Reply<Place>, second: Reply<Locality>)
    ensures var o := ResolveUrl(urlField, fields, primary, proxy, first, second);
      var url := Trim(urlField);
      && (o.toast == EnterUrl <==> url == "")
      && (o.toast == NoCoordinates <==> url != "" && Extract(ExpandIfShort(url, primary, proxy)).None?)
      && (o.toast == Extracted <==>
            url != "" && Extract(ExpandIfShort(url, primary, proxy)).Some? && GetAddressFromCoords(first, second).Some?)
      && o.toast != ProcessingError
  {
    var url := Trim(urlField);
    if url != "" {
      DecideExtracted(fields, ExpandIfShort(url, primary, proxy), GetAddressFromCoords(first, second));
    }
  }

  /** What the extraction finds never sends `Decide` to the catch block. */
  lemma DecideExtracted(fields: Fields, url: string, address: Option<string>)
    ensures Decide(fields, Extract(url), address).toast != ProcessingError
  {
    var m := FirstMatch(Patterns, url);
    if m.Some? {
      DecideRendered(fields, m.value, address);
    }
  }

  /** A printed numeral without its sign when it reads as minus zero: what `-0` prints. */
  function Signless(t: string): string {
    if t == "-0.000000" then "0.000000" else t
  }

  /**
   * The placeholder address is `Location at L, G` for the extracted `L, G`, except that
   * `-0.000000`, read back as minus zero, prints as `0.000000`.
   */
  lemma Placeholder(urlField: string, fields: Fields, primary: PrimaryReply, proxy: ProxyReply,
                    first: Reply<Place>, second: Reply<Locality>)
    requires ResolveUrl(urlField, fields, primary, proxy, first, second).toast == ExtractedNoAddress
    ensures var expanded := ExpandIfShort(Trim(urlField), primary, proxy);
      var c := FirstMatch(Patterns, expanded).value;
      && GetAddressFromCoords(first, second).None?
      && ResolveUrl(urlField, fields, primary, proxy, first, second).fields ==
         Fields(ToFixed6(c.lat) + ", " + ToFixed6(c.lng),
                "Location at " + Signless(ToFixed6(c.lat)) + ", " + Signless(ToFixed6(c.lng)))
  {
    var expanded := ExpandIfShort(Trim(urlField), primary, proxy);
    var c := FirstMatch(Patterns, expanded).value;
    var address := GetAddressFromCoords(first, second);
    assert Extract(expanded) == Some(Render(c));
    assert ResolveUrl(urlField, fields, primary, proxy, first, second) == Decide(fields, Some(Render(c)), address);
    DecideRendered(fields, c, address);
  }

  /**
   * Splitting a rendered pair at its comma, trimming and re-rendering each half gives
   * the two printed numerals back, up to the sign of zero.
   */
  lemma SplitRendered(c: Coordinate)
    requires ValidCoordinate(c)
    ensures var parts := Split(Render(c), ',');
      && |parts| == 2
      && Refix(Trim(parts[0])) == Signless(ToFixed6(c.lat))
      && Refix(Trim(parts[1])) == Signless(ToFixed6(c.lng))
  {
    var lat, lng := ToFixed6(c.lat), ToFixed6(c.lng);
    Fixed6Shape(lat);
    Fixed6Shape(lng);
    SplitCommaSpace(lat, lng);
    TrimDropsSpace(' ', lng);
    assert " " + lng == [' '] + lng;
    RenderReadsBack(c.lat);
    RenderReadsBack(c.lng);
  }
}
