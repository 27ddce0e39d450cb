/**
 * One part of an email as `msg.walk()` yields it, `decode_content`, the two
 * extension tables that choose a parser, and the opaque libraries the scanner
 * calls (file reads, email parsing, header and charset decoding, document
 * parsers, the MIME tables).
 */
module Parts {
  import opened Basics
  import opened Text
  import opened Keywords
  import opened Paths

  /** A leaf or container part of a parsed message. */
  datatype Part = Part(
    contentType: string,       // get_content_type(): "maintype/subtype", lower case
    charset: Option<string>,   // get_content_charset()
    filename: Option<string>,  // get_filename()
    payload: Bytes,            // get_payload(decode=True)
    rawPayload: string)        // get_payload()

  /** get_content_maintype(): the text before the first `/`. */
  function MainType(contentType: string): string {
    Split(contentType, '/')[0]
  }

  predicate IsMultipart(part: Part) {
    MainType(part.contentType) == "multipart"
  }

  /** What `decode_content` hands back: a `str`, the raw `bytes` (a text/plain
      part without a charset), or the exception that escapes it. */
  datatype Decoded = Str(s: string) | Binary(b: Bytes) | Escaped(exc: Exception)

  const PlainFailure := "Failed to decode content"
  const HtmlMarker := "HTML content:\n"
  const NonTextMarker := "Non-text content. Content type: "

  predicate IsPlain(part: Part) {
    Contains(part.contentType, "text/plain")
  }

  predicate IsHtml(part: Part) {
    Contains(part.contentType, "text/html")
  }

  /** `decode_content(part)`; `decode` is `bytes.decode(charset)`. A charset
      that is absent or empty leaves the payload as bytes; only a `TypeError`
      while decoding becomes the placeholder text. */
  function DecodeContent(part: Part, decode: (Bytes, string) -> Outcome<string>): (r: Decoded)
    ensures r.Binary? <==> IsPlain(part) && (part.charset.None? || part.charset.value == [])
    ensures r.Binary? ==> r.b == part.payload
    ensures r.Escaped? <==> IsPlain(part) && part.charset.Some? && part.charset.value != []
                            && decode(part.payload, part.charset.value).Raised?
                            && !decode(part.payload, part.charset.value).exc.TypeError?
    ensures !IsPlain(part) ==> r.Str?
    ensures IsPlain(part) && part.charset.Some? && part.charset.value != [] ==>
              match decode(part.payload, part.charset.value)
              case Ok(text) => r == Str(text)
              case Raised(TypeError(_)) => r == Str(PlainFailure)
              case Raised(e) => r == Escaped(e)
    ensures !IsPlain(part) && IsHtml(part) ==> r == Str(HtmlMarker + part.rawPayload)
    ensures !IsPlain(part) && !IsHtml(part) ==> r == Str(NonTextMarker + part.contentType)
  {
    if IsPlain(part) then
      match part.charset
      case None => Binary(part.payload)
      case Some(cs) =>
        if cs == [] then Binary(part.payload)
        else
          match decode(part.payload, cs)
          case Ok(text) => Str(text)
          case Raised(TypeError(_)) => Str(PlainFailure)
          case Raised(e) => Escaped(e)
    else if IsHtml(part) then Str(HtmlMarker + part.rawPayload)
    else Str(NonTextMarker + part.contentType)
  }

  /** The plain-text test comes first: a type naming both text/plain and
      text/html is decoded as plain text, and a plain part that decodes
      yields its decoded text. */
  lemma PlainBeforeHtml(part: Part, decode: (Bytes, string) -> Outcome<string>)
    requires IsPlain(part) && part.charset.Some? && part.charset.value != []
    requires decode(part.payload, part.charset.value).Ok?
    ensures DecodeContent(part, decode) == Str(decode(part.payload, part.charset.value).value)
  {
  }

  /** Every part that is not text/plain is searched through its marker text:
      an html part as `HTML content:` plus its markup, any other part as the
      non-text label plus its content type. So the keyword "content", in any
      case, is found in every such part, and a keyword found in the content
      type (say "pdf" in application/pdf) is found in a non-text part. */
  lemma MarkerTextMatches(part: Part, decode: (Bytes, string) -> Outcome<string>, keyword: string)
    requires !IsPlain(part)
    ensures Matches(DecodeContent(part, decode).s, "content")
    ensures !IsHtml(part) && Matches(part.contentType, keyword) ==>
              Matches(DecodeContent(part, decode).s, keyword)
  {
    if IsHtml(part) {
      HtmlMarkerMatches(part.rawPayload);
    } else {
      NonTextMarkerMatches(part.contentType, keyword);
    }
  }

  lemma HtmlMarkerMatches(raw: string)
    ensures Matches(HtmlMarker + raw, "content")
  {
    assert HtmlMarker == "HTML " + "content" + ":\n";
    assert ("HTML " + "content" + ":\n") + raw == "HTML " + "content" + (":\n" + raw);
    MatchesInside("HTML ", "content", ":\n" + raw);
  }

  lemma NonTextMarkerMatches(contentType: string, keyword: string)
    ensures Matches(NonTextMarker + contentType, "content")
    ensures Matches(contentType, keyword) ==> Matches(NonTextMarker + contentType, keyword)
  {
    assert NonTextMarker == "Non-text " + "content" + ". Content type: ";
    assert ("Non-text " + "content" + ". Content type: ") + contentType ==
           "Non-text " + "content" + (". Content type: " + contentType);
    MatchesInside("Non-text ", "content", ". Content type: " + contentType);
    if Matches(contentType, keyword) {
      MatchesSuffix(NonTextMarker, contentType, keyword);
    }
  }

  /** A keyword found in the tail of a text is found in the whole text. */
  lemma MatchesSuffix(prefix: string, text: string, keyword: string)
    requires Matches(text, keyword)
    ensures Matches(prefix + text, keyword)
  {
    var lt := Lower(text);
    var lk := Lower(keyword);
    var i := ContainsWitness(lt, lk);
    var whole := Lower(prefix + text);
    assert forall j :: 0 <= j < |lt| ==> whole[|prefix| + j] == lt[j];
    assert whole[|prefix| + i..|prefix| + i + |lk|] == lt[i..i + |lk|];
    ContainsAt(whole, lk, |prefix| + i);
  }

  /** The parsers behind the extension tables: UTF-8 decoding of bytes, a text
      file read in text mode, docx paragraphs, pdf pages, pandas CSV and Excel
      tables, and ElementTree re-serialisation. */
  datatype Parser = Utf8 | TextFile | Docx | Pdf | Csv | Xlsx | Xml

  const FileExtensions: set<string> := {"txt", "docx", "pdf", "csv", "xlsx", "xml"}
  const AttachmentExtensions: set<string> :=
    {"txt", "docx", "pdf", "xml", "csv", "js", "css", "html", "json", "tsv"}

  /** The if-chain of `process_file`. */
  function FileParser(ext: Option<string>): (r: Option<Parser>)
    ensures r.Some? <==> ext.Some? && ext.value in FileExtensions
  {
    if ext == Some("txt") then Some(TextFile)
    else if ext == Some("docx") then Some(Docx)
    else if ext == Some("pdf") then Some(Pdf)
    else if ext == Some("csv") then Some(Csv)
    else if ext == Some("xlsx") then Some(Xlsx)
    else if ext == Some("xml") then Some(Xml)
    else None
  }

  /** The if-chain of `save_attachments` (its xlsx branch is commented out). */
  function AttachmentParser(ext: string): (r: Option<Parser>)
    ensures r.Some? <==> ext in AttachmentExtensions
    ensures r == Some(Utf8) <==> ext in {"txt", "js", "css", "html", "json", "tsv"}
  {
    if ext == "txt" then Some(Utf8)
    else if ext == "docx" then Some(Docx)
    else if ext == "pdf" then Some(Pdf)
    else if ext == "xml" then Some(Xml)
    else if ext == "csv" then Some(Csv)
    else if ext in ["js", "css", "html", "json", "tsv"] then Some(Utf8)
    else None
  }

  /** The two tables differ: an xlsx file is read, an xlsx attachment is not;
      script, style, html, json and tsv attachments are read, such files are
      not. */
  lemma TablesDiffer()
    ensures FileParser(Some("xlsx")).Some? && AttachmentParser("xlsx").None?
    ensures forall e :: e in ["js", "css", "html", "json", "tsv"] ==>
      AttachmentParser(e).Some? && FileParser(Some(e)).None?
  {
  }

  /** The libraries the scanner calls, each a function that returns a value
      or raises. */
  datatype Env = Env(
    mime: MimeDb,
    readFile: string -> Outcome<Bytes>,                  // reading a file of the corpus
    parseEmail: Bytes -> Outcome<seq<Part>>,             // message_from_bytes(...).walk()
    decodeHeader: string -> Outcome<string>,             // decode_header(name)[0], decoded
    decodeCharset: (Bytes, string) -> Outcome<string>,   // bytes.decode(charset)
    parse: (Parser, Bytes) -> Outcome<string>)           // the document parsers
}
