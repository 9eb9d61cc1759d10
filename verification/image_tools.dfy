/** The resizer and compressor of the utilities screen: which encoder, quality and file
    name a download gets. Decoding the image and drawing it on the canvas are not modelled;
    the width and height are whatever the number inputs hold. */
module ImageTools {
  import opened Wrappers
  import opened Text

  /** The quality slider's range; it starts at 80. */
  type Quality = q: int | 1 <= q <= 100 witness 80

  const InitialQuality: Quality := 80

  /** A width or height as `parseInt` of the number input leaves it: None is NaN, which an
      emptied input produces. */
  type Dimension = Option<int>

  function ShowDimension(d: Dimension): string
  {
    match d
    case None => "NaN"
    case Some(v) => ShowInt(v)
  }

  datatype Kind = Resize | Compress

  /** What the download carries: the `toDataURL` arguments and the file name. */
  datatype Download = Download(mimeType: string, quality: Option<real>, filename: string)

  /** The two kinds of file name the tool writes. `ts` is `Date.now()`. */
  datatype FileInfo = Compressed(ts: nat) | Resized(width: Dimension, height: Dimension, ts: nat)

  /** `compressed_<ts>.jpg` or `resized_<w>x<h>_<ts>.png`. */
  function FileName(info: FileInfo): (r: string)
    ensures info.Compressed? ==> |r| > 15 && r[..11] == "compressed_" && r[|r| - 4..] == ".jpg"
    ensures info.Resized? ==> |r| > 14 && r[..8] == "resized_" && r[|r| - 4..] == ".png"
  {
    match info
    case Compressed(ts) => "compressed" + "_" + (ShowInt(ts) + "." + "jpg")
    case Resized(w, h, ts) =>
      "resized" + "_" + ((ShowDimension(w) + "x" + ShowDimension(h)) + "_" + (ShowInt(ts) + "." + "png"))
  }

  /** `processImage(kind)` with the current image, size, quality and clock: nothing without
      an image; compression encodes JPEG at quality/100, resizing encodes PNG at the chosen
      size. */
  function ProcessImage(image: Option<string>, kind: Kind, width: Dimension, height: Dimension,
                        quality: Quality, now: nat): (r: Option<Download>)
    ensures r.None? <==> !Truthy(image)
    ensures r.Some? && kind == Compress ==>
      r.value.mimeType == "image/jpeg" && r.value.quality.Some?
      && 0.0 < r.value.quality.value <= 1.0 && r.value.quality.value * 100.0 == quality as real
    ensures r.Some? && kind == Resize ==> r.value.mimeType == "image/png" && r.value.quality.None?
    ensures r.Some? ==>
      ParseFileName(r.value.filename) == Some(if kind == Compress then Compressed(now) else Resized(width, height, now))
  {
    if !Truthy(image) then None
    else
      var info := if kind == Compress then Compressed(now) else Resized(width, height, now);
      FileNameRoundTrip(info);
      match kind
      case Compress => Some(Download("image/jpeg", Some(quality as real / 100.0), FileName(info)))
      case Resize => Some(Download("image/png", None, FileName(info)))
  }

  // ---------------------------------------------------------------------------
  // reading a file name back
  // ---------------------------------------------------------------------------

  function ParseDimension(s: string): Option<Dimension>
  {
    if s == "NaN" then Some(None)
    else match ParseInt(s)
      case None => None
      case Some(v) => Some(Some(v))
  }

  /** `<ts>.<ext>` with a non-negative `ts`. */
  function ParseStamp(s: string, ext: string): Option<nat>
  {
    var parts := Split(s, '.');
    if |parts| != 2 || parts[1] != ext then None
    else match ParseInt(parts[0])
      case Some(t) => if t >= 0 then Some(t) else None
      case None => None
  }

  function ParseFileName(name: string): Option<FileInfo>
  {
    var parts := Split(name, '_');
    if |parts| == 2 && parts[0] == "compressed" then
      match ParseStamp(parts[1], "jpg")
      case None => None
      case Some(ts) => Some(Compressed(ts))
    else if |parts| == 3 && parts[0] == "resized" then
      var dims := Split(parts[1], 'x');
      if |dims| != 2 then None
      else match (ParseDimension(dims[0]), ParseDimension(dims[1]), ParseStamp(parts[2], "png"))
        case (Some(w), Some(h), Some(ts)) => Some(Resized(w, h, ts))
        case _ => None
    else None
  }

  /** The rendering of an integer is a minus sign and digits. */
  lemma ShowIntChars(i: int)
    ensures forall k | 0 <= k < |ShowInt(i)| :: IsDigit(ShowInt(i)[k]) || ShowInt(i)[k] == '-'
  {
    if i < 0 {
      var s := ShowInt(i);
      assert s == "-" + ShowNat(-i);
      assert forall k | 1 <= k < |s| :: s[k] == ShowNat(-i)[k - 1];
    }
  }

  lemma ShowDimensionRoundTrip(d: Dimension)
    ensures ParseDimension(ShowDimension(d)) == Some(d)
    ensures '_' !in ShowDimension(d) && 'x' !in ShowDimension(d) && '.' !in ShowDimension(d)
  {
    match d
    case None =>
    case Some(v) =>
      ShowIntChars(v);
      ShowIntRoundTrip(v);
  }

  lemma ShowStampRoundTrip(ts: nat, ext: string)
    requires '.' !in ext
    ensures ParseStamp(ShowInt(ts) + "." + ext, ext) == Some(ts)
    ensures '_' !in ShowInt(ts) && 'x' !in ShowInt(ts)
  {
    ShowIntChars(ts);
    SplitAfterPiece(ShowInt(ts), '.', ext);
    SplitWithoutSeparator(ext, '.');
    ShowIntRoundTrip(ts);
  }

  lemma CompressedNameRoundTrip(ts: nat)
    ensures ParseFileName(FileName(Compressed(ts))) == Some(Compressed(ts))
  {
    var stamp := ShowInt(ts) + "." + "jpg";
    ShowStampRoundTrip(ts, "jpg");
    assert '_' !in stamp;
    SplitAfterPiece("compressed", '_', stamp);
    SplitWithoutSeparator(stamp, '_');
  }

  lemma SizeRoundTrip(w: Dimension, h: Dimension)
    ensures var dims := ShowDimension(w) + "x" + ShowDimension(h);
      '_' !in dims && Split(dims, 'x') == [ShowDimension(w), ShowDimension(h)]
  {
    ShowDimensionRoundTrip(w);
    ShowDimensionRoundTrip(h);
    assert ShowDimension(w) + "x" + ShowDimension(h) == ShowDimension(w) + ['x'] + ShowDimension(h);
    SplitAfterPiece(ShowDimension(w), 'x', ShowDimension(h));
    SplitWithoutSeparator(ShowDimension(h), 'x');
  }

  lemma SplitThree(a: string, b: string, c: string, sep: char)
    requires sep !in a && sep !in b && sep !in c
    ensures Split(a + [sep] + (b + [sep] + c), sep) == [a, b, c]
  {
    SplitAfterPiece(a, sep, b + [sep] + c);
    SplitAfterPiece(b, sep, c);
    SplitWithoutSeparator(c, sep);
  }

  lemma ResizedParts(dims: string, stamp: string, w: Dimension, h: Dimension, ts: nat)
    requires Split(dims, 'x') == [ShowDimension(w), ShowDimension(h)]
    requires ParseStamp(stamp, "png") == Some(ts)
    requires Split("resized" + ['_'] + (dims + ['_'] + stamp), '_') == ["resized", dims, stamp]
    ensures ParseFileName("resized" + ['_'] + (dims + ['_'] + stamp)) == Some(Resized(w, h, ts))
  {
    ShowDimensionRoundTrip(w);
    ShowDimensionRoundTrip(h);
  }

  lemma ResizedNameRoundTrip(w: Dimension, h: Dimension, ts: nat)
    ensures ParseFileName(FileName(Resized(w, h, ts))) == Some(Resized(w, h, ts))
  {
    var dims := ShowDimension(w) + "x" + ShowDimension(h);
    var stamp := ShowInt(ts) + "." + "png";
    SizeRoundTrip(w, h);
    ShowStampRoundTrip(ts, "png");
    assert '_' !in stamp;
    assert '_' !in "resized";
    SplitThree("resized", dims, stamp, '_');
    ResizedParts(dims, stamp, w, h, ts);
  }

  /** Every file name the tool writes can be read back into the size and time it records. */
  lemma FileNameRoundTrip(info: FileInfo)
    ensures ParseFileName(FileName(info)) == Some(info)
  {
    match info
    case Compressed(ts) => CompressedNameRoundTrip(ts);
    case Resized(w, h, ts) => ResizedNameRoundTrip(w, h, ts);
  }
}
