/** The document preview (src/components/DocumentViewer.tsx): the file
    extension taken from the document's name and the view chosen for it. The
    download button (fetch, Blob, DOM link) is not part of this model. */
module DocumentViewer {
  import opened Wrappers
  import opened Text
  import Utf8
  import SubmissionForm

  // ---------------------------------------------------------------------
  // getFileExtension

  /** `name.split('.').pop()`: the text after the last '.', or the whole
      name when it has no '.'. */
  function LastPiece(name: string): (r: string)
    ensures |r| <= |name| && r == name[|name| - |r|..]
    ensures '.' !in r
    decreases |name|
  {
    if name == [] then []
    else if name[|name| - 1] == '.' then []
    else LastPiece(name[..|name| - 1]) + [name[|name| - 1]]
  }

  /** The last piece is the whole name exactly when the name has no '.'. */
  lemma {:induction false} LastPieceWhole(name: string)
    ensures LastPiece(name) == name <==> '.' !in name
    decreases |name|
  {
    if '.' !in name && name != [] {
      var init := name[..|name| - 1];
      assert '.' !in init by {
        forall i | 0 <= i < |init| ensures init[i] != '.' {
          assert init[i] == name[i];
        }
      }
      LastPieceWhole(init);
      assert name == init + [name[|name| - 1]];
    }
  }

  /** When the name has a '.', one stands right before the last piece. */
  lemma {:induction false} LastPieceAfterLastDot(name: string)
    requires '.' in name
    ensures |LastPiece(name)| < |name| && name[|name| - |LastPiece(name)| - 1] == '.'
    decreases |name|
  {
    if name[|name| - 1] != '.' {
      var init := name[..|name| - 1];
      var i :| 0 <= i < |name| && name[i] == '.';
      assert init[i] == '.';
      LastPieceAfterLastDot(init);
      var k := |init| - |LastPiece(init)| - 1;
      assert name[k] == init[k];
    }
  }

  /** The piece after a '.' is read back from `base + "." + ext`, whatever
      the base holds. */
  lemma {:induction false} LastPieceAfterDot(base: string, ext: string)
    requires '.' !in ext
    ensures LastPiece(base + "." + ext) == ext
    decreases |ext|
  {
    var name := base + "." + ext;
    if ext != [] {
      assert name[..|name| - 1] == base + "." + ext[..|ext| - 1];
      LastPieceAfterDot(base, ext[..|ext| - 1]);
      assert ext == ext[..|ext| - 1] + [ext[|ext| - 1]];
    }
  }

  /** Lower-casing and taking the last piece commute: lower-casing keeps
      every '.' where it is. */
  lemma {:induction false} LastPieceToLower(name: string)
    ensures LastPiece(ToLower(name)) == ToLower(LastPiece(name))
    decreases |name|
  {
    if name != [] {
      var low := ToLower(name);
      assert low[..|low| - 1] == ToLower(name[..|name| - 1]);
      LastPieceToLower(name[..|name| - 1]);
    }
  }

  /** `getFileExtension`: the last piece, lower-cased (`|| ''` only maps
      "" to ""). */
  function FileExtension(filename: string): string {
    ToLower(LastPiece(filename))
  }

  // ---------------------------------------------------------------------
  // encodeURIComponent

  /** The characters `encodeURIComponent` leaves as they are. */
  predicate Unreserved(c: char) {
    'A' <= c <= 'Z' || 'a' <= c <= 'z' || '0' <= c <= '9'
    || c == '-' || c == '_' || c == '.' || c == '!' || c == '~' || c == '*' || c == '\'' || c == '(' || c == ')'
  }

  const HexDigits := "0123456789ABCDEF"

  /** One UTF-8 byte: itself when it is an unreserved ASCII character,
      otherwise `%` and two upper-case hexadecimal digits. */
  function PercentByte(b: Utf8.byte): string {
    if b < 0x80 && Unreserved(b as int as char) then [b as int as char]
    else ['%', HexDigits[b as int / 16], HexDigits[b as int % 16]]
  }

  function PercentEncode(bytes: seq<Utf8.byte>): string {
    if bytes == [] then "" else PercentByte(bytes[0]) + PercentEncode(bytes[1..])
  }

  /** `encodeURIComponent(s)`: the UTF-8 bytes of `s`, percent-encoded. */
  function EncodeUriComponent(s: string): string {
    PercentEncode(Utf8.Encode(s))
  }

  /** The encoding uses only unreserved characters, '%' and upper-case
      hexadecimal digits. */
  lemma {:induction false} PercentEncodeAlphabet(bytes: seq<Utf8.byte>)
    ensures forall c | c in PercentEncode(bytes) :: Unreserved(c) || c == '%' || c in HexDigits
    decreases |bytes|
  {
    if bytes != [] {
      PercentEncodeAlphabet(bytes[1..]);
      assert PercentEncode(bytes) == PercentByte(bytes[0]) + PercentEncode(bytes[1..]);
    }
  }

  function HexValue(c: char): Option<nat> {
    if '0' <= c <= '9' then Some(c as int - '0' as int)
    else if 'A' <= c <= 'F' then Some(c as int - 'A' as int + 10)
    else if 'a' <= c <= 'f' then Some(c as int - 'a' as int + 10)
    else None
  }

  lemma HexDigitValue(d: nat)
    requires d < 16
    ensures HexValue(HexDigits[d]) == Some(d)
  {
  }

  /** The reading that undoes the percent-encoding, byte by byte: a reference
      for the encoder, not something the page does. */
  function PercentDecode(s: string): Option<seq<Utf8.byte>>
    decreases |s|
  {
    if s == [] then Some([])
    else if s[0] == '%' then
      if |s| < 3 || HexValue(s[1]).None? || HexValue(s[2]).None? then None
      else match PercentDecode(s[3..])
        case None => None
        case Some(rest) => Some([(HexValue(s[1]).value * 16 + HexValue(s[2]).value) as Utf8.byte] + rest)
    else if s[0] as int < 0x80 then
      match PercentDecode(s[1..])
      case None => None
      case Some(rest) => Some([s[0] as int as Utf8.byte] + rest)
    else None
  }

  lemma PercentByteDecodes(b: Utf8.byte, rest: string)
    ensures PercentDecode(PercentByte(b) + rest) ==
      match PercentDecode(rest) case None => None case Some(r) => Some([b] + r)
  {
    var s := PercentByte(b) + rest;
    if b < 0x80 && Unreserved(b as int as char) {
      assert s[1..] == rest;
    } else {
      HexDigitValue(b as int / 16);
      HexDigitValue(b as int % 16);
      assert s[3..] == rest;
    }
  }

  lemma {:induction false} PercentRoundTrip(bytes: seq<Utf8.byte>)
    ensures PercentDecode(PercentEncode(bytes)) == Some(bytes)
    decreases |bytes|
  {
    if bytes != [] {
      PercentRoundTrip(bytes[1..]);
      PercentByteDecodes(bytes[0], PercentEncode(bytes[1..]));
      assert [bytes[0]] + bytes[1..] == bytes;
    }
  }

  /** Decoding the percent-encoding and then the UTF-8 gives back the URL
      the viewer was given. */
  lemma EncodeUriComponentRoundTrip(s: string)
    ensures PercentDecode(EncodeUriComponent(s)).Some?
    ensures Utf8.Decode(PercentDecode(EncodeUriComponent(s)).value) == Some(s)
  {
    PercentRoundTrip(Utf8.Encode(s));
    Utf8.DecodeEncode(s);
  }

  // ---------------------------------------------------------------------
  // renderDocumentPreview

  const ImageExtensions: seq<string> := ["jpg", "jpeg", "png", "gif", "webp", "bmp"]
  const OfficeExtensions: seq<string> := ["doc", "docx"]
  const OfficeViewerPrefix := "https://view.officeapps.live.com/op/embed.aspx?src="

  /** What the dialog shows: a PDF frame, an image, the Office web viewer,
      or the "Preview not available" panel with a link to the document. */
  datatype Preview =
    | PdfFrame(src: string)
    | ImageView(src: string)
    | OfficeViewer(src: string)
    | NoPreview(url: string)

  /** `renderDocumentPreview`: the branch is chosen by the extension alone,
      in the source's order. */
  function RenderPreview(documentUrl: string, documentName: string): (r: Preview)
    ensures r.PdfFrame? <==> FileExtension(documentName) == "pdf"
    ensures r.ImageView? <==> FileExtension(documentName) in ImageExtensions
    ensures r.OfficeViewer? <==> FileExtension(documentName) in OfficeExtensions
    ensures r.PdfFrame? ==> r.src == documentUrl + "#view=FitH"
    ensures r.ImageView? ==> r.src == documentUrl
    ensures r.OfficeViewer? ==> r.src == OfficeViewerPrefix + EncodeUriComponent(documentUrl)
    ensures r.NoPreview? ==> r.url == documentUrl
  {
    var extension := FileExtension(documentName);
    if extension == "pdf" then PdfFrame(documentUrl + "#view=FitH")
    else if extension in ImageExtensions then ImageView(documentUrl)
    else if extension in OfficeExtensions then OfficeViewer(OfficeViewerPrefix + EncodeUriComponent(documentUrl))
    else NoPreview(documentUrl)
  }

  /** Every file the submission form accepts (".doc" or ".docx" in any
      case) is previewed in the Office viewer. */
  lemma AcceptedUploadsOpenInOfficeViewer(documentUrl: string, documentName: string)
    requires SubmissionForm.AcceptedFileName(documentName)
    ensures RenderPreview(documentUrl, documentName).OfficeViewer?
  {
    AcceptedExtension(documentName);
    var r := RenderPreview(documentUrl, documentName);
    assert FileExtension(documentName) in OfficeExtensions;
  }

  lemma AcceptedExtension(documentName: string)
    requires SubmissionForm.AcceptedFileName(documentName)
    ensures FileExtension(documentName) == "doc" || FileExtension(documentName) == "docx"
  {
    var low := ToLower(documentName);
    LastPieceToLower(documentName);
    if EndsWith(low, ".doc") {
      OfficeEnding(low, ".doc");
    } else {
      OfficeEnding(low, ".docx");
    }
  }

  /** A name ending in one of the two accepted suffixes has that suffix,
      without its '.', as its last piece. */
  lemma OfficeEnding(name: string, suffix: string)
    requires suffix == ".doc" || suffix == ".docx"
    requires EndsWith(name, suffix)
    ensures LastPiece(name) == suffix[1..]
  {
    assert suffix == "." + suffix[1..];
    EndsWithDotExt(name, suffix[1..]);
  }

  /** A name ending in "." and an extension without a '.' has that
      extension as its last piece. */
  lemma EndsWithDotExt(name: string, ext: string)
    requires '.' !in ext
    requires EndsWith(name, "." + ext)
    ensures LastPiece(name) == ext
  {
    var base := name[..|name| - |ext| - 1];
    assert name == base + name[|name| - |ext| - 1..];
    assert name == base + "." + ext;
    LastPieceAfterDot(base, ext);
  }
}
