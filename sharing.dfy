/**
 * The share builders (script.js:506-617): the texts `shareViaWhatsApp`, `shareViaSMS`,
 * `shareViaEmail`, `copyToClipboard` and `shareAsVCard` compose from a record, and the
 * query `shareViaGoogleMaps` searches for. Sending them (opening a URL, the clipboard, a
 * file download) and the percent-encoding of `encodeURIComponent` are not modelled.
 * Each builder adds its map line only when the record has a map URL.
 */
module Sharing {
  import opened Wrappers
  import opened Strings
  import opened Customers

  /**
   * The icons of the WhatsApp message, as the code points the script holds: emoji
   * mis-decoded from UTF-8 into Mac OS Roman.
   */
  const MobileIcon: string := "\U{F8FF}\U{00FC}\U{00EC}\U{00B1}"
  const AddressIcon: string := "\U{F8FF}\U{00FC}\U{00EC}\U{00E7}"
  const MapIcon: string := "\U{F8FF}\U{00FC}\U{00F3}\U{222B}\U{00D4}\U{220F}\U{00E8}"

  const Footer: string := "Shared via Customer Manager App"

  // The fixed parts of the lines
  const WaMobile: string := MobileIcon + " *Mobile:* +91-"
  const WaAddress: string := AddressIcon + " *Address:* "
  const WaCoordinates: string := MapIcon + " *Coordinates:* "
  const WaMapLink: string := MapIcon + " *Map Link:* "
  const WaFooter: string := "_" + Footer + "_"
  const Star: string := "*"
  const NameLabel: string := "Name: "
  const MobileLabel: string := "Mobile: +91-"
  const AddressLabel: string := "Address: "
  const CoordinatesLabel: string := "Coordinates: "
  const MapLabel: string := "Map: "
  const MapLinkLabel: string := "Map Link: "
  const InfoHeader: string := "Customer Information:"
  const SubjectLabel: string := "Customer Details: "
  const CardBegin: string := "BEGIN:VCARD"
  const CardVersion: string := "VERSION:3.0"
  const CardName: string := "FN:"
  const CardTel: string := "TEL;TYPE=CELL:+91"
  const CardAddress: string := "ADR;TYPE=HOME:;;"
  const CardAddressEnd: string := ";"
  const CardNote: string := "NOTE:Coordinates: "
  const CardUrl: string := "URL:"
  const CardEnd: string := "END:VCARD"
  /** The white-space line the indented template literals of the e-mail and the vCard leave. */
  const Indent: string := "    "

  /** No field of the record spans several lines. */
  predicate SingleLine(c: Customer) {
    '\n' !in c.name && '\n' !in c.mobile && '\n' !in c.address && '\n' !in c.coordinates && '\n' !in c.mapUrl
  }

  /** `customer.address.replace(/\n/g, ' ')`. */
  function FlattenLines(s: string): (r: string)
    ensures |r| == |s| && '\n' !in r
    ensures forall k :: 0 <= k < |s| ==> r[k] == if s[k] == '\n' then ' ' else s[k]
  {
    seq(|s|, k requires 0 <= k < |s| => if s[k] == '\n' then ' ' else s[k])
  }

  /** The lines the map URL adds, if any. */
  function MapLine(c: Customer, lead: string): seq<string> {
    if c.mapUrl != [] then [lead + c.mapUrl] else []
  }

  /** None of the fixed parts spans several lines. */
  lemma IconsSingleLine()
    ensures '\n' !in MobileIcon && '\n' !in AddressIcon && '\n' !in MapIcon
  {
  }

  lemma WhatsAppPartsSingleLine()
    ensures '\n' !in Star && '\n' !in WaFooter
    ensures '\n' !in WaMobile && '\n' !in WaAddress && '\n' !in WaCoordinates && '\n' !in WaMapLink
  {
    IconsSingleLine();
    FooterSingleLine();
  }

  lemma FooterSingleLine()
    ensures '\n' !in Footer && '\n' !in Indent
  {
  }

  lemma LabelsSingleLine()
    ensures '\n' !in Footer && '\n' !in Indent && '\n' !in InfoHeader
    ensures '\n' !in NameLabel && '\n' !in MobileLabel && '\n' !in AddressLabel && '\n' !in CoordinatesLabel
    ensures '\n' !in MapLabel && '\n' !in MapLinkLabel
  {
    FooterSingleLine();
  }

  lemma CardPartsSingleLine()
    ensures '\n' !in Indent
    ensures '\n' !in CardBegin && '\n' !in CardVersion && '\n' !in CardName && '\n' !in CardTel
    ensures '\n' !in CardAddress && '\n' !in CardAddressEnd && '\n' !in CardNote && '\n' !in CardUrl && '\n' !in CardEnd
  {
    FooterSingleLine();
  }

  // ---------------------------------------------------------------------------
  // The builders, as the script concatenates them

  function WhatsAppMessage(c: Customer): string {
    var message := Star + c.name + Star + "\n" + "\n" + (WaMobile + c.mobile)
      + "\n" + (WaAddress + c.address) + "\n" + (WaCoordinates + c.coordinates);
    var withMap := if c.mapUrl != [] then message + "\n" + (WaMapLink + c.mapUrl) else message;
    withMap + "\n" + "\n" + WaFooter
  }

  function SmsMessage(c: Customer): string {
    var message := c.name + "\n" + (MobileLabel + c.mobile) + "\n" + (AddressLabel + c.address)
      + "\n" + (CoordinatesLabel + c.coordinates);
    var withMap := if c.mapUrl != [] then message + "\n" + (MapLabel + c.mapUrl) else message;
    withMap + "\n" + "\n" + Footer
  }

  /** The subject line: the label, then the customer's name as it is. */
  function EmailSubject(c: Customer): (s: string)
    ensures |s| == |SubjectLabel| + |c.name|
    ensures s[..|SubjectLabel|] == SubjectLabel && s[|SubjectLabel|..] == c.name
  {
    SubjectLabel + c.name
  }

  /** The e-mail body before `trim`: it opens with a line break. */
  function EmailBodyText(c: Customer): string {
    var body := "\n" + InfoHeader + "\n" + "\n" + (NameLabel + c.name) + "\n" + (MobileLabel + c.mobile)
      + "\n" + (AddressLabel + c.address) + "\n" + (CoordinatesLabel + c.coordinates) + "\n" + Indent;
    var withMap := if c.mapUrl != [] then body + "\n" + (MapLinkLabel + c.mapUrl) else body;
    withMap + "\n" + "\n" + Footer
  }

  function EmailBody(c: Customer): string {
    Trim(EmailBodyText(c))
  }

  function ClipboardText(c: Customer): string {
    var text := NameLabel + c.name + "\n" + (MobileLabel + c.mobile) + "\n" + (AddressLabel + c.address)
      + "\n" + (CoordinatesLabel + c.coordinates);
    if c.mapUrl != [] then text + "\n" + (MapLabel + c.mapUrl) else text
  }

  /** The vCard before `trim`: it opens with a line break. */
  function VCardText(c: Customer): string {
    var card := "\n" + CardBegin + "\n" + CardVersion + "\n" + (CardName + c.name) + "\n" + (CardTel + c.mobile)
      + "\n" + (CardAddress + FlattenLines(c.address) + CardAddressEnd) + "\n" + (CardNote + c.coordinates)
      + "\n" + Indent;
    var withMap := if c.mapUrl != [] then card + "\n" + (CardUrl + c.mapUrl) else card;
    withMap + "\n" + CardEnd
  }

  function VCard(c: Customer): string {
    Trim(VCardText(c))
  }

  /** `shareViaGoogleMaps`: the search query, when there are coordinates to search for. */
  function MapsSearchQuery(c: Customer): (q: Option<string>)
    ensures q.Some? <==> c.coordinates != [] && c.coordinates != NotProvided
    ensures q.Some? ==> q.value == c.coordinates
  {
    if c.coordinates != [] && c.coordinates != NotProvided then Some(c.coordinates) else None
  }

  // ---------------------------------------------------------------------------
  // Their line structure

  /** Appending a separator and a separator-free line appends that line to the split. */
  lemma SplitLine(a: string, b: string)
    requires '\n' !in b
    ensures Split(a + "\n" + b, '\n') == Split(a, '\n') + [b]
  {
    SplitAppend(a, '\n', b);
    SplitWithoutSeparator(b, '\n');
  }

  /** A trailing separator appends an empty line. */
  lemma SplitBreak(a: string)
    ensures Split(a + "\n", '\n') == Split(a, '\n') + [[]]
  {
    assert a + "\n" == a + "\n" + [];
    SplitLine(a, []);
  }

  /** A text that opens with a line break splits into an empty line and the rest. */
  lemma SplitLeadingBreak(s: string)
    requires s != [] && s[0] == '\n'
    ensures Split(s, '\n') == [[]] + Split(s[1..], '\n')
  {
  }

  lemma SplitOne(a: string)
    requires '\n' !in a
    ensures Split(a, '\n') == [a]
  {
    SplitWithoutSeparator(a, '\n');
  }

  /** A title, a blank line and three lines. */
  lemma TitledLines(t: string, a: string, b: string, d: string)
    requires '\n' !in t && '\n' !in a && '\n' !in b && '\n' !in d
    ensures Split(t + "\n" + "\n" + a + "\n" + b + "\n" + d, '\n') == [t, "", a, b, d]
  {
    SplitOne(t);
    SplitBreak(t);
    SplitLine(t + "\n", a);
    SplitLine(t + "\n" + "\n" + a, b);
    SplitLine(t + "\n" + "\n" + a + "\n" + b, d);
  }

  /** Four lines. */
  lemma FourLines(a: string, b: string, d: string, e: string)
    requires '\n' !in a && '\n' !in b && '\n' !in d && '\n' !in e
    ensures Split(a + "\n" + b + "\n" + d + "\n" + e, '\n') == [a, b, d, e]
  {
    SplitOne(a);
    SplitLine(a, b);
    SplitLine(a + "\n" + b, d);
    SplitLine(a + "\n" + b + "\n" + d, e);
  }

  /** The head of the e-mail body: an opening break, a header, a blank line and five lines. */
  lemma HeadedLines(h: string, a: string, b: string, d: string, e: string, f: string)
    requires '\n' !in h && '\n' !in a && '\n' !in b && '\n' !in d && '\n' !in e && '\n' !in f
    ensures Split("\n" + h + "\n" + "\n" + a + "\n" + b + "\n" + d + "\n" + e + "\n" + f, '\n') ==
      ["", h, "", a, b, d, e, f]
  {
    var head: string := "\n" + h;
    assert head == [] + "\n" + h;
    SplitOne([]);
    SplitLine([], h);
    SplitBreak(head);
    SplitLine(head + "\n", a);
    SplitLine(head + "\n" + "\n" + a, b);
    SplitLine(head + "\n" + "\n" + a + "\n" + b, d);
    SplitLine(head + "\n" + "\n" + a + "\n" + b + "\n" + d, e);
    SplitLine(head + "\n" + "\n" + a + "\n" + b + "\n" + d + "\n" + e, f);
  }

  /** The head of the vCard: an opening break and seven lines. */
  lemma OpenedLines(p: string, q: string, a: string, b: string, d: string, e: string, f: string)
    requires '\n' !in p && '\n' !in q && '\n' !in a && '\n' !in b && '\n' !in d && '\n' !in e && '\n' !in f
    ensures Split("\n" + p + "\n" + q + "\n" + a + "\n" + b + "\n" + d + "\n" + e + "\n" + f, '\n') ==
      ["", p, q, a, b, d, e, f]
  {
    var head: string := "\n" + p;
    assert head == [] + "\n" + p;
    SplitOne([]);
    SplitLine([], p);
    SplitLine(head, q);
    SplitLine(head + "\n" + q, a);
    SplitLine(head + "\n" + q + "\n" + a, b);
    SplitLine(head + "\n" + q + "\n" + a + "\n" + b, d);
    SplitLine(head + "\n" + q + "\n" + a + "\n" + b + "\n" + d, e);
    SplitLine(head + "\n" + q + "\n" + a + "\n" + b + "\n" + d + "\n" + e, f);
  }

  /** A blank line and a footer after the lines of `m`. */
  lemma Closing(m: string, f: string)
    requires '\n' !in f
    ensures Split(m + "\n" + "\n" + f, '\n') == Split(m, '\n') + ["", f]
  {
    SplitBreak(m);
    SplitLine(m + "\n", f);
  }

  /** The WhatsApp message, line by line: title, blank, three fields, the map link, blank, footer. */
  lemma WhatsAppLines(c: Customer)
    requires SingleLine(c)
    ensures Split(WhatsAppMessage(c), '\n') ==
      [Star + c.name + Star, "", WaMobile + c.mobile, WaAddress + c.address, WaCoordinates + c.coordinates]
      + MapLine(c, WaMapLink) + ["", WaFooter]
  {
    WhatsAppPartsSingleLine();
    var title := Star + c.name + Star;
    var l2, l3, l4 := WaMobile + c.mobile, WaAddress + c.address, WaCoordinates + c.coordinates;
    TitledLines(title, l2, l3, l4);
    var message := title + "\n" + "\n" + l2 + "\n" + l3 + "\n" + l4;
    var withMap := if c.mapUrl != [] then message + "\n" + (WaMapLink + c.mapUrl) else message;
    if c.mapUrl != [] {
      SplitLine(message, WaMapLink + c.mapUrl);
    }
    Closing(withMap, WaFooter);
  }

  /** The SMS text, line by line: name, three fields, the map line, blank, footer. */
  lemma SmsLines(c: Customer)
    requires SingleLine(c)
    ensures Split(SmsMessage(c), '\n') ==
      [c.name, MobileLabel + c.mobile, AddressLabel + c.address, CoordinatesLabel + c.coordinates]
      + MapLine(c, MapLabel) + ["", Footer]
  {
    LabelsSingleLine();
    var l1, l2, l3 := MobileLabel + c.mobile, AddressLabel + c.address, CoordinatesLabel + c.coordinates;
    FourLines(c.name, l1, l2, l3);
    var message := c.name + "\n" + l1 + "\n" + l2 + "\n" + l3;
    var withMap := if c.mapUrl != [] then message + "\n" + (MapLabel + c.mapUrl) else message;
    if c.mapUrl != [] {
      SplitLine(message, MapLabel + c.mapUrl);
    }
    Closing(withMap, Footer);
  }

  /** The clipboard text, line by line: four fields and the map line. */
  lemma ClipboardLines(c: Customer)
    requires SingleLine(c)
    ensures Split(ClipboardText(c), '\n') ==
      [NameLabel + c.name, MobileLabel + c.mobile, AddressLabel + c.address, CoordinatesLabel + c.coordinates]
      + MapLine(c, MapLabel)
  {
    LabelsSingleLine();
    var l0, l1, l2, l3 := NameLabel + c.name, MobileLabel + c.mobile, AddressLabel + c.address,
                          CoordinatesLabel + c.coordinates;
    FourLines(l0, l1, l2, l3);
    if c.mapUrl != [] {
      SplitLine(l0 + "\n" + l1 + "\n" + l2 + "\n" + l3, MapLabel + c.mapUrl);
    }
  }

  /** The untrimmed e-mail body, line by line; it opens with an empty line. */
  lemma EmailTextLines(c: Customer)
    requires SingleLine(c)
    ensures Split(EmailBodyText(c), '\n') ==
      ["", InfoHeader, "", NameLabel + c.name, MobileLabel + c.mobile, AddressLabel + c.address,
       CoordinatesLabel + c.coordinates, Indent]
      + MapLine(c, MapLinkLabel) + ["", Footer]
  {
    LabelsSingleLine();
    var l3, l4, l5, l6 := NameLabel + c.name, MobileLabel + c.mobile, AddressLabel + c.address,
                          CoordinatesLabel + c.coordinates;
    HeadedLines(InfoHeader, l3, l4, l5, l6, Indent);
    var body := "\n" + InfoHeader + "\n" + "\n" + l3 + "\n" + l4 + "\n" + l5 + "\n" + l6 + "\n" + Indent;
    var withMap := if c.mapUrl != [] then body + "\n" + (MapLinkLabel + c.mapUrl) else body;
    if c.mapUrl != [] {
      SplitLine(body, MapLinkLabel + c.mapUrl);
    }
    Closing(withMap, Footer);
  }

  /** The untrimmed vCard, line by line; it opens with an empty line. */
  lemma VCardTextLines(c: Customer)
    requires '\n' !in c.name && '\n' !in c.mobile && '\n' !in c.coordinates && '\n' !in c.mapUrl
    ensures Split(VCardText(c), '\n') ==
      ["", CardBegin, CardVersion, CardName + c.name, CardTel + c.mobile,
       CardAddress + FlattenLines(c.address) + CardAddressEnd, CardNote + c.coordinates, Indent]
      + MapLine(c, CardUrl) + [CardEnd]
  {
    CardPartsSingleLine();
    var l3, l4 := CardName + c.name, CardTel + c.mobile;
    var l5, l6 := CardAddress + FlattenLines(c.address) + CardAddressEnd, CardNote + c.coordinates;
    OpenedLines(CardBegin, CardVersion, l3, l4, l5, l6, Indent);
    var card := "\n" + CardBegin + "\n" + CardVersion + "\n" + l3 + "\n" + l4 + "\n" + l5 + "\n" + l6 + "\n" + Indent;
    var withMap := if c.mapUrl != [] then card + "\n" + (CardUrl + c.mapUrl) else card;
    if c.mapUrl != [] {
      SplitLine(card, CardUrl + c.mapUrl);
    }
    SplitLine(withMap, CardEnd);
  }

  /** A text that opens with a line break, and whose lines are a blank one and then `rest`, loses that blank line. */
  lemma DropLeadingBlank(s: string, rest: seq<string>)
    requires s != [] && s[0] == '\n' && Split(s, '\n') == [[]] + rest
    ensures Split(s[1..], '\n') == rest
  {
    SplitLeadingBreak(s);
    assert ([[]] + rest)[1..] == rest;
    assert ([[]] + Split(s[1..], '\n'))[1..] == Split(s[1..], '\n');
  }

  /** The first and last characters of the e-mail body and of the vCard are not white space. */
  lemma OuterCharacters()
    ensures InfoHeader != [] && !IsJsSpace(InfoHeader[0]) && Footer != [] && !IsJsSpace(Footer[|Footer| - 1])
    ensures CardBegin != [] && !IsJsSpace(CardBegin[0]) && CardEnd != [] && !IsJsSpace(CardEnd[|CardEnd| - 1])
  {
  }

  /** `trim` removes exactly the opening line break of a text whose next and last characters are not white space. */
  lemma TrimOpeningBreak(s: string)
    requires |s| >= 2 && s[0] == '\n' && !IsJsSpace(s[1]) && !IsJsSpace(s[|s| - 1])
    ensures Trim(s) == s[1..]
  {
    assert s == ['\n'] + s[1..];
    TrimDropsSpace('\n', s[1..]);
  }

  /** The e-mail body the script sends, line by line: `trim` only drops the opening line break. */
  lemma EmailBodyLines(c: Customer)
    requires SingleLine(c)
    ensures Split(EmailBody(c), '\n') ==
      [InfoHeader, "", NameLabel + c.name, MobileLabel + c.mobile, AddressLabel + c.address,
       CoordinatesLabel + c.coordinates, Indent]
      + MapLine(c, MapLinkLabel) + ["", Footer]
  {
    var text := EmailBodyText(c);
    OuterCharacters();
    assert text[0] == '\n' && text[1] == InfoHeader[0];
    assert text[|text| - 1] == Footer[|Footer| - 1];
    TrimOpeningBreak(text);
    EmailTextLines(c);
    var rest := [InfoHeader, "", NameLabel + c.name, MobileLabel + c.mobile, AddressLabel + c.address,
                           CoordinatesLabel + c.coordinates, Indent]
                          + MapLine(c, MapLinkLabel) + ["", Footer];
    assert Split(text, '\n') == [[]] + rest;
    DropLeadingBlank(text, rest);
  }

  /**
   * The vCard the script downloads, line by line, in the order of RFC 2426: a multi-line
   * address still gives one `ADR` line.
   */
  lemma VCardLines(c: Customer)
    requires '\n' !in c.name && '\n' !in c.mobile && '\n' !in c.coordinates && '\n' !in c.mapUrl
    ensures Split(VCard(c), '\n') ==
      [CardBegin, CardVersion, CardName + c.name, CardTel + c.mobile,
       CardAddress + FlattenLines(c.address) + CardAddressEnd, CardNote + c.coordinates, Indent]
      + MapLine(c, CardUrl) + [CardEnd]
  {
    var text := VCardText(c);
    OuterCharacters();
    assert text[0] == '\n' && text[1] == CardBegin[0];
    assert text[|text| - 1] == CardEnd[|CardEnd| - 1];
    TrimOpeningBreak(text);
    VCardTextLines(c);
    var rest := [CardBegin, CardVersion, CardName + c.name, CardTel + c.mobile,
                           CardAddress + FlattenLines(c.address) + CardAddressEnd, CardNote + c.coordinates, Indent]
                          + MapLine(c, CardUrl) + [CardEnd];
    assert Split(text, '\n') == [[]] + rest;
    DropLeadingBlank(text, rest);
  }
}
