/**
 * Short-link detection (`isShortUrl`, script.js:861-866) and the expansion fallback of
 * `expandShortUrl` (script.js:869-892). The two web services are not called: what each
 * one answered is an input value.
 */
module ShortLinks {
  import opened Strings

  /**
   * `isShortUrl`: the script's four case-sensitive substring tests (`goo.gl`, `maps.app.goo.gl`,
   * `bit.ly`, `tinyurl.com`, in that order). The body settles `maps.app.goo.gl` first to
   * discharge it with `MapsAppIsGooGl`; the tests have no side effects, so the order does not
   * change the result.
   */
  function IsShortUrl(url: string): (r: bool)
    ensures r <==> Contains(url, "goo.gl") || Contains(url, "bit.ly") || Contains(url, "tinyurl.com")
  {
    if Contains(url, "maps.app.goo.gl") then
      MapsAppIsGooGl(url);
      true
    else
      Contains(url, "goo.gl") || Contains(url, "bit.ly") || Contains(url, "tinyurl.com")
  }

  /** The `maps.app.goo.gl` test is implied by the `goo.gl` test. */
  lemma MapsAppIsGooGl(url: string)
    requires Contains(url, "maps.app.goo.gl")
    ensures Contains(url, "goo.gl")
  {
    var host: string := "maps.app.goo.gl";
    assert host[9..15] == "goo.gl";
    assert ContainsAt(host, "goo.gl", 9);
    ContainsTransitive(url, host, "goo.gl");
  }

  /** What the unshortening service answered: a thrown error, or the response text. */
  datatype PrimaryReply = PrimaryThrows | Body(text: string)

  /**
   * What the proxy answered: a thrown error (including a body that is not JSON or is
   * `null`), or the parsed JSON's `contents`, with `""` for a missing or falsy field.
   */
  datatype ProxyReply = ProxyThrows | Json(contents: string)

  /** The primary answer is used: a non-empty text that does not mention `Error`. */
  predicate PrimaryUsable(primary: PrimaryReply) {
    primary.Body? && primary.text != "" && !Contains(primary.text, "Error")
  }

  /**
   * `expandShortUrl`: the trimmed primary text when it is usable, otherwise the proxy's
   * non-empty `contents` (whatever they are), otherwise the short URL itself.
   */
  function ExpandShortUrl(shortUrl: string, primary: PrimaryReply, proxy: ProxyReply): (r: string)
    ensures PrimaryUsable(primary) ==> r == Trim(primary.text)
    ensures !PrimaryUsable(primary) && proxy.Json? && proxy.contents != "" ==> r == proxy.contents
    ensures !PrimaryUsable(primary) && (proxy.ProxyThrows? || proxy.contents == "") ==> r == shortUrl
  {
    if primary.Body? && primary.text != "" && !Contains(primary.text, "Error") then
      Trim(primary.text)
    else if proxy.Json? then
      if proxy.contents != "" then proxy.contents else shortUrl
    else
      shortUrl
  }

  /** The expansion is the URL itself or comes from one of the two answers. */
  lemma ExpansionSources(shortUrl: string, primary: PrimaryReply, proxy: ProxyReply)
    ensures var r := ExpandShortUrl(shortUrl, primary, proxy);
      || r == shortUrl
      || (primary.Body? && r == Trim(primary.text))
      || (proxy.Json? && r == proxy.contents)
  {
  }

  /** The proxy is not consulted when the primary answer is usable. */
  lemma ProxyUnusedAfterPrimary(shortUrl: string, primary: PrimaryReply, p1: ProxyReply, p2: ProxyReply)
    requires PrimaryUsable(primary)
    ensures ExpandShortUrl(shortUrl, primary, p1) == ExpandShortUrl(shortUrl, primary, p2)
  {
  }
}
