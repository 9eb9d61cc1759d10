/** The link shortener and the QR code generator of the utilities screen: URL
    normalisation, and the request URLs that carry the user's text to the TinyURL and
    QR-server endpoints as a component-encoded query parameter. The fetches themselves are
    not modelled; their outcome is a parameter. */
module Links {
  import opened Wrappers
  import opened Text
  import UriComponent

  const TinyUrlEndpoint := "https://tinyurl.com/api-create.php"
  const QrEndpoint := "https://api.qrserver.com/v1/create-qr-code/"
  const QrSize := "200x200"

  /** The test `/^https?:\/\//i`. Without the `u` flag, case-insensitive matching folds
      no non-ASCII character onto an ASCII one, so ASCII folding is exact here. */
  predicate HasHttpScheme(url: string)
  {
    StartsWithIgnoringCase(url, "http://") || StartsWithIgnoringCase(url, "https://")
  }

  /** The URL the shortener submits: `https://` is put in front of anything that does not
      already begin with `http://` or `https://` in some letter case. */
  function Normalize(url: string): (r: string)
    ensures HasHttpScheme(r)
    ensures HasHttpScheme(url) ==> r == url
    ensures |url| <= |r| && r[|r| - |url|..] == url
  {
    if HasHttpScheme(url) then url
    else
      var r := "https://" + url;
      assert r[..8] == "https://";
      assert LowerAsciiString("https://") == "https://";
      r
  }

  /** Normalising twice is normalising once. */
  lemma NormalizeIdempotent(url: string)
    ensures Normalize(Normalize(url)) == Normalize(url)
  {
  }

  /** Everything other than a scheme-bearing URL gains exactly the prefix `https://`. */
  lemma NormalizeAddsHttps(url: string)
    requires !HasHttpScheme(url)
    ensures Normalize(url) == "https://" + url
  {
  }

  /** The shape the regular expression accepts, character by character: `h`, `t`, `t`, `p`
      in either case, an optional `s` in either case, then `://` exactly. */
  lemma SchemeTestShape(url: string)
    ensures HasHttpScheme(url) <==>
      |url| >= 7
      && LowerAscii(url[0]) == 'h' && LowerAscii(url[1]) == 't' && LowerAscii(url[2]) == 't'
      && LowerAscii(url[3]) == 'p'
      && ((url[4] == ':' && url[5] == '/' && url[6] == '/')
          || (|url| >= 8 && LowerAscii(url[4]) == 's' && url[5] == ':' && url[6] == '/' && url[7] == '/'))
  {
    if |url| >= 7 {
      var plain := LowerAsciiString(url[..7]);
      assert plain == "http://" <==> forall i | 0 <= i < 7 :: plain[i] == "http://"[i];
    }
    if |url| >= 8 {
      var secure := LowerAsciiString(url[..8]);
      assert secure == "https://" <==> forall i | 0 <= i < 8 :: secure[i] == "https://"[i];
    }
  }

  /** The TinyURL request for the text in the input box; None when the box is empty, in
      which case nothing is fetched. */
  function ShortenRequest(url: string): (r: Option<string>)
    ensures r.None? <==> url == ""
    ensures r.Some? ==> StartsWith(r.value, TinyUrlEndpoint + "?url=")
  {
    if url == "" then None
    else Some(TinyUrlEndpoint + "?" + "url" + "=" + UriComponent.Encode(Normalize(url)))
  }

  /** The QR image request; the image (and its download) only appears for non-empty text. */
  function QrRequest(text: string): (r: Option<string>)
    ensures r.None? <==> text == ""
    ensures r.Some? ==> StartsWith(r.value, QrEndpoint + "?size=" + QrSize + "&data=")
  {
    if text == "" then None
    else Some(QrEndpoint + "?" + "size" + "=" + QrSize + "&" + "data" + "=" + UriComponent.Encode(text))
  }

  /** The state the shortener shows: the short link and whether it was just copied. */
  datatype Shortener = Shortener(short: string, copied: bool)

  /** `shorten`: nothing for an empty URL; otherwise the copied mark is cleared and the
      reply body, when the service answered with success, becomes the short link. A failed
      request only raises an alert. */
  function Shorten(st: Shortener, url: string, reply: Result<string, string>): (r: Shortener)
    ensures url == "" ==> r == st
    ensures url != "" ==> !r.copied
    ensures url != "" && reply.Success? ==> r.short == reply.value
    ensures reply.Failure? ==> r.short == st.short
  {
    if url == "" then st
    else if reply.Success? then Shortener(reply.value, false)
    else st.(copied := false)
  }

  // ---------------------------------------------------------------------------
  // reading a query back, as the receiving server does
  // ---------------------------------------------------------------------------

  /** The value after `key=` in the first parameter that starts so. */
  function Lookup(params: seq<string>, key: string): Option<string>
  {
    if |params| == 0 then None
    else if StartsWith(params[0], key + "=") then Some(params[0][|key| + 1..])
    else Lookup(params[1..], key)
  }

  /** The raw value of query parameter `key`: after the first '?', the '&'-separated
      parameters are searched in order. */
  function QueryValue(url: string, key: string): Option<string>
  {
    match After(url, '?')
    case None => None
    case Some(query) => Lookup(Split(query, '&'), key)
  }

  /** An encoded component carries no '?', '&' or '='. */
  lemma EncodedIsInert(s: string)
    ensures var e := UriComponent.Encode(s); '?' !in e && '&' !in e && '=' !in e
  {
  }

  /** A URL `endpoint?k1=v1&k2=v2` yields `v1` for `k1` and `v2` for `k2`, provided the parts
      carry no separator and the first parameter is not also a `k2` one. */
  lemma QueryValueOfPair(endpoint: string, k1: string, v1: string, k2: string, v2: string)
    requires '?' !in endpoint && '&' !in k1 && '&' !in v1 && '&' !in k2 && '&' !in v2
    requires !StartsWith(k1 + "=" + v1, k2 + "=")
    ensures var url := endpoint + "?" + k1 + "=" + v1 + "&" + k2 + "=" + v2;
      QueryValue(url, k1) == Some(v1) && QueryValue(url, k2) == Some(v2)
  {
    var first := k1 + "=" + v1;
    var second := k2 + "=" + v2;
    var query := first + "&" + second;
    assert endpoint + "?" + k1 + "=" + v1 + "&" + k2 + "=" + v2 == endpoint + ['?'] + query;
    AfterPiece(endpoint, '?', query);
    assert query == first + ['&'] + second;
    SplitAfterPiece(first, '&', second);
    SplitWithoutSeparator(second, '&');
    var params := Split(query, '&');
    assert params == [first, second];
    assert first[..|k1| + 1] == k1 + "=" && first[|k1| + 1..] == v1;
    assert second[..|k2| + 1] == k2 + "=" && second[|k2| + 1..] == v2;
    assert Lookup(params, k2) == Lookup([second], k2);
  }

  /** A URL `endpoint?key=value` yields `value` for `key`. */
  lemma QueryValueOfOne(endpoint: string, key: string, value: string)
    requires '?' !in endpoint && '&' !in key && '&' !in value
    ensures QueryValue(endpoint + "?" + key + "=" + value, key) == Some(value)
  {
    var query := key + "=" + value;
    assert endpoint + "?" + key + "=" + value == endpoint + ['?'] + query;
    AfterPiece(endpoint, '?', query);
    SplitWithoutSeparator(query, '&');
    assert query[..|key| + 1] == key + "=";
    assert query[|key| + 1..] == value;
  }

  /** The QR server reads back exactly the user's text from `data`, and the size 200x200. */
  lemma QrRequestCarriesText(text: string)
    requires text != ""
    ensures QueryValue(QrRequest(text).value, "size") == Some(QrSize)
    ensures QueryValue(QrRequest(text).value, "data").Some?
    ensures UriComponent.Decode(QueryValue(QrRequest(text).value, "data").value) == Some(text)
  {
    var e := UriComponent.Encode(text);
    EncodedIsInert(text);
    assert '?' !in QrEndpoint;
    assert '&' !in QrSize;
    assert ("size" + "=" + QrSize)[0] == 's';
    QueryValueOfPair(QrEndpoint, "size", QrSize, "data", e);
    UriComponent.DecodeEncode(text);
  }

  /** TinyURL reads back from `url` exactly the normalised URL. */
  lemma ShortenRequestCarriesUrl(url: string)
    requires url != ""
    ensures QueryValue(ShortenRequest(url).value, "url").Some?
    ensures UriComponent.Decode(QueryValue(ShortenRequest(url).value, "url").value) == Some(Normalize(url))
  {
    var e := UriComponent.Encode(Normalize(url));
    EncodedIsInert(Normalize(url));
    assert '?' !in TinyUrlEndpoint;
    QueryValueOfOne(TinyUrlEndpoint, "url", e);
    UriComponent.DecodeEncode(Normalize(url));
  }
}
