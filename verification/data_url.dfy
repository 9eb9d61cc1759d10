/** The data URLs the media screens pass around, `data:<mime>;base64,<payload>` in the
    form of section 3 of RFC 2397 that `FileReader.readAsDataURL` and the image services
    produce, and the way the screens take them apart: `url.split(',')[1]` for the payload
    and `url.split(';')[0].split(':')[1]` for the MIME type. An index past the end of a split
    is JavaScript's `undefined`, here None. */
module DataUrl {
  import opened Wrappers
  import opened Text
  import Base64

  /** `data:<mime>;base64,<data>`. */
  function Build(mime: string, data: string): string
  {
    "data:" + mime + ";base64," + data
  }

  /** `url.split(',')[1]`: present exactly when the URL has a comma. */
  function Payload(url: string): (r: Option<string>)
    ensures r.Some? <==> ',' in url
    ensures r.Some? ==> ',' !in r.value
  {
    SplitAtFirst(url, ',');
    var pieces := Split(url, ',');
    if |pieces| >= 2 then Some(pieces[1]) else None
  }

  /** `url.split(';')[0].split(':')[1]`: present exactly when a colon comes before the first
      semicolon. */
  function MimeType(url: string): (r: Option<string>)
    ensures r.Some? <==> ':' in UpTo(url, ';')
    ensures r.Some? ==> ':' !in r.value
  {
    SplitAtFirst(url, ';');
    var head := Split(url, ';')[0];
    SplitAtFirst(head, ':');
    var pieces := Split(head, ':');
    if |pieces| >= 2 then Some(pieces[1]) else None
  }

  /** The payload is the text between the first comma and the next one (or the end). */
  lemma PayloadBetweenCommas(url: string)
    ensures Payload(url) == (match After(url, ',') case None => None case Some(rest) => Some(UpTo(rest, ',')))
  {
    SplitAtFirst(url, ',');
    if After(url, ',').Some? {
      SplitAtFirst(After(url, ',').value, ',');
    }
  }

  /** The MIME type is the text between the first colon and the next colon or the first
      semicolon, whichever comes first; there is none if no colon precedes the semicolon. */
  lemma MimeTypeBetweenColonAndSemicolon(url: string)
    ensures MimeType(url) == (match After(UpTo(url, ';'), ':') case None => None case Some(rest) => Some(UpTo(rest, ':')))
  {
    SplitAtFirst(url, ';');
    var head := UpTo(url, ';');
    SplitAtFirst(head, ':');
    if After(head, ':').Some? {
      SplitAtFirst(After(head, ':').value, ':');
    }
  }

  /** Taking apart a URL built from a MIME type free of ':', ';' and ',' and a payload free
      of ',' gives back exactly the two. */
  lemma PartsOfBuilt(mime: string, data: string)
    requires ':' !in mime && ';' !in mime && ',' !in mime && ',' !in data
    ensures Payload(Build(mime, data)) == Some(data)
    ensures MimeType(Build(mime, data)) == Some(mime)
  {
    var url := Build(mime, data);
    var head := "data:" + mime + ";base64";
    assert url == head + [','] + data;
    assert ',' !in head by {
      assert head == "data:" + mime + ";base64";
      assert forall k | 0 <= k < |head| :: head[k] == ',' ==> 5 <= k < 5 + |mime| && head[k] == mime[k - 5];
    }
    SplitAfterPiece(head, ',', data);
    SplitWithoutSeparator(data, ',');
    var front := "data:" + mime;
    assert url == front + [';'] + ("base64," + data);
    assert ';' !in front;
    SplitAfterPiece(front, ';', "base64," + data);
    assert front == "data" + [':'] + mime;
    assert ':' !in "data";
    SplitAfterPiece("data", ':', mime);
    SplitWithoutSeparator(mime, ':');
  }

  /** A data URL holding `btoa` output splits back into its MIME type and that output. */
  lemma PartsOfEncoded(mime: string, binary: string)
    requires ':' !in mime && ';' !in mime && ',' !in mime
    requires Base64.Btoa(binary).Some?
    ensures Payload(Build(mime, Base64.Btoa(binary).value)) == Base64.Btoa(binary)
    ensures MimeType(Build(mime, Base64.Btoa(binary).value)) == Some(mime)
  {
    var data := Base64.Btoa(binary).value;
    Base64.BtoaIsBase64Text(binary);
    PartsOfBuilt(mime, data);
  }
}
