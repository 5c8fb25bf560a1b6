/**
 * RagService1: ingestion of an uploaded file of any common format
 * (ragEtl, pickReader) and the search request behind a question (ragChat).
 */
module RagService {
  import opened Wrappers
  import opened Strings
  import opened Documents
  import opened Readers

  /** The branches of pickReader, in the order it tries them; Other is the fallback. */
  datatype Format = Text | Pdf | Word | Csv | Json | Xml | Html | Other

  /** The position of a branch in pickReader. */
  function Rank(f: Format): nat {
    match f
    case Text => 0
    case Pdf => 1
    case Word => 2
    case Csv => 3
    case Json => 4
    case Xml => 5
    case Html => 6
    case Other => 7
  }

  /**
   * The test of each branch, on the lower-cased filename and content type:
   * a content-type prefix (a substring for Word) or a filename suffix.
   * The fallback has no test of its own.
   */
  predicate Matches(f: Format, name: string, ct: string) {
    match f
    case Text => StartsWith(ct, "text/plain") || EndsWith(name, ".txt")
    case Pdf => StartsWith(ct, "application/pdf") || EndsWith(name, ".pdf")
    case Word =>
      Contains(ct, "wordprocessingml") || Contains(ct, "msword") ||
      EndsWith(name, ".doc") || EndsWith(name, ".docx")
    case Csv => StartsWith(ct, "text/csv") || EndsWith(name, ".csv")
    case Json => StartsWith(ct, "application/json") || EndsWith(name, ".json")
    case Xml =>
      StartsWith(ct, "application/xml") || StartsWith(ct, "text/xml") || EndsWith(name, ".xml")
    case Html => StartsWith(ct, "text/html") || EndsWith(name, ".html") || EndsWith(name, ".htm")
    case Other => false
  }

  /**
   * The branch pickReader takes: the first one, in Rank order, whose test
   * holds, or the fallback when none holds.
   */
  function Detect(name: string, ct: string): (f: Format)
    ensures f != Other ==> Matches(f, name, ct)
    ensures forall g :: Rank(g) < Rank(f) ==> !Matches(g, name, ct)
  {
    if Matches(Text, name, ct) then Text
    else if Matches(Pdf, name, ct) then Pdf
    else if Matches(Word, name, ct) then Word
    else if Matches(Csv, name, ct) then Csv
    else if Matches(Json, name, ct) then Json
    else if Matches(Xml, name, ct) then Xml
    else if Matches(Html, name, ct) then Html
    else Other
  }

  /** The first-match statement of Detect leaves exactly one possible branch. */
  lemma FirstMatchIsUnique(f: Format, name: string, ct: string)
    requires f != Other ==> Matches(f, name, ct)
    requires forall g :: Rank(g) < Rank(f) ==> !Matches(g, name, ct)
    ensures f == Detect(name, ct)
  {
  }

  /** Word is taken exactly when its test holds and neither text nor PDF matched. */
  lemma WordChosenExactly(name: string, ct: string)
    ensures Detect(name, ct) == Word <==>
      !Matches(Text, name, ct) && !Matches(Pdf, name, ct) &&
      (Contains(ct, "wordprocessingml") || Contains(ct, "msword") ||
       EndsWith(name, ".doc") || EndsWith(name, ".docx"))
  {
  }

  /** HTML is recognised by a text/html prefix or a .html/.htm suffix, when no earlier branch matched. */
  lemma HtmlChosenExactly(name: string, ct: string)
    ensures Detect(name, ct) == Html <==>
      (forall g :: Rank(g) < Rank(Html) ==> !Matches(g, name, ct)) &&
      (StartsWith(ct, "text/html") || EndsWith(name, ".html") || EndsWith(name, ".htm"))
  {
  }

  /** The filename pickReader tests: lower-cased, with null read as "". */
  function NormalizedName(attach: Upload): (r: string)
    ensures attach.originalFilename.None? ==> r == ""
    ensures attach.originalFilename.Some? ==> r == ToLower(attach.originalFilename.value)
    ensures forall i :: 0 <= i < |r| ==> !IsUpper(r[i])
  {
    if attach.originalFilename.None? then "" else ToLower(attach.originalFilename.value)
  }

  /** The content type pickReader tests: lower-cased, with null read as "". */
  function NormalizedType(attach: Upload): (r: string)
    ensures attach.contentType.None? ==> r == ""
    ensures attach.contentType.Some? ==> r == ToLower(attach.contentType.value)
    ensures forall i :: 0 <= i < |r| ==> !IsUpper(r[i])
  {
    if attach.contentType.None? then "" else ToLower(attach.contentType.value)
  }

  /** The reader pickReader builds for each branch. */
  function ReaderFor(f: Format, name: string, ct: string): ReaderKind {
    match f
    case Text => TextReader
    case Pdf => PagePdfReader
    case Word => TikaReader
    case Csv => TikaReader
    case Json => JsonReader(FilenameAndType(name, ct), ["content"])
    case Xml => TikaReader
    case Html => JsoupReader(JsoupConfig("UTF-8", "body", map[]))
    case Other => TikaReader
  }

  /**
   * pickReader: the reader for an upload, on the given resource. Word, CSV,
   * XML and every unrecognised input share the Tika reader; JSON reads the
   * "content" field and tags each document with the lower-cased filename and
   * content type; HTML reads the body as UTF-8.
   */
  function PickReader(attach: Upload, resource: Resource): (r: Reader)
    ensures r.resource == resource
    ensures var f := Detect(NormalizedName(attach), NormalizedType(attach));
      && (r.kind == TextReader <==> f == Text)
      && (r.kind == PagePdfReader <==> f == Pdf)
      && (r.kind == TikaReader <==> f in {Word, Csv, Xml, Other})
      && (r.kind.JsonReader? <==> f == Json)
      && (r.kind.JsoupReader? <==> f == Html)
    ensures r.kind.JsonReader? ==>
      r.kind == JsonReader(FilenameAndType(NormalizedName(attach), NormalizedType(attach)), ["content"])
    ensures r.kind.JsoupReader? ==> r.kind.config == JsoupConfig("UTF-8", "body", map[])
  {
    var name := NormalizedName(attach);
    var ct := NormalizedType(attach);
    Reader(ReaderFor(Detect(name, ct), name, ct), resource)
  }

  /** A null filename or content type is read as the empty string. */
  lemma NullReadAsEmpty(attach: Upload, resource: Resource)
    ensures PickReader(attach, resource) ==
      PickReader(Upload(Some(attach.originalFilename.GetOr("")), Some(attach.contentType.GetOr("")), attach.bytes), resource)
  {
  }

  /** The choice of reader and its configuration do not depend on letter case. */
  lemma PickReaderIgnoresCase(attach: Upload, resource: Resource)
    ensures PickReader(attach, resource) ==
      PickReader(Upload(if attach.originalFilename.None? then None else Some(ToLower(attach.originalFilename.value)),
                        if attach.contentType.None? then None else Some(ToLower(attach.contentType.value)),
                        attach.bytes), resource)
  {
    if attach.originalFilename.Some? {
      ToLowerIdempotent(attach.originalFilename.value);
    }
    if attach.contentType.Some? {
      ToLowerIdempotent(attach.contentType.value);
    }
  }

  /** Each test accepts a filename suffix alone: a ".txt" name is read as text even when declared a PDF. */
  lemma TxtNameBeatsPdfType(name: string, bytes: seq<bv8>, resource: Resource)
    requires EndsWith(ToLower(name), ".txt")
    ensures PickReader(Upload(Some(name), Some("application/pdf"), bytes), resource).kind == TextReader
  {
  }

  /** The name the upload's resource reports: the original filename, or "upload.bin" when there is none. */
  function ResourceFilename(attach: Upload): (r: string)
    ensures attach.originalFilename.None? ==> r == "upload.bin"
    ensures attach.originalFilename.Some? ==> r == attach.originalFilename.value
  {
    attach.originalFilename.GetOr("upload.bin")
  }

  /** The in-memory resource ragEtl reads the upload from. */
  function UploadResource(attach: Upload): (r: Resource)
    ensures r.ByteArray? && r.bytes == attach.bytes
    ensures r.filename == Some(ResourceFilename(attach))
  {
    ByteArray(attach.bytes, Some(ResourceFilename(attach)))
  }

  /** The keys ragEtl puts into every document: the caller's source and the upload's own filename and type. */
  function RagFields(source: Option<string>, attach: Upload): Metadata {
    map["source" := Boxed(source),
        "filename" := Boxed(attach.originalFilename),
        "contentType" := Boxed(attach.contentType)]
  }

  /**
   * The metadata loop of ragEtl: every document gets the three fields,
   * overwriting earlier values, and keeps every other key. A document listed
   * twice receives the same values twice.
   */
  method StampDocuments(documents: seq<Document>, source: Option<string>, attach: Upload)
    modifies set d | d in documents
    ensures forall d :: d in documents ==>
      d.text == old(d.text) && d.metadata == Overwrite(old(d.metadata), RagFields(source, attach))
  {
    ghost var fields := RagFields(source, attach);
    for i := 0 to |documents|
      invariant forall d :: d in documents ==> d.text == old(d.text)
      invariant forall d :: d in documents[..i] ==> d.metadata == Overwrite(old(d.metadata), fields)
      invariant forall d :: d in documents && d !in documents[..i] ==> d.metadata == old(d.metadata)
    {
      var doc := documents[i];
      ghost var before := doc.metadata;
      doc.Put("source", Boxed(source));
      doc.Put("filename", Boxed(attach.originalFilename));
      doc.Put("contentType", Boxed(attach.contentType));
      PutsAreOverwrite(before, source, attach);
      if doc in documents[..i] {
        OverwriteIdempotent(old(doc.metadata), fields);
      }
      assert documents[..i + 1] == documents[..i] + [doc];
    }
  }

  /** The three puts of the loop body amount to one overwrite by RagFields. */
  lemma PutsAreOverwrite(m: Metadata, source: Option<string>, attach: Upload)
    ensures m["source" := Boxed(source)]["filename" := Boxed(attach.originalFilename)]
             ["contentType" := Boxed(attach.contentType)] == Overwrite(m, RagFields(source, attach))
  {
  }

  /** The splitter ragEtl builds: the caller's chunk size and minimum, no embedding floor, at most 10000 chunks, separators kept. */
  function RagSplitter(chunkSize: int, minChunkSizeChars: int): (s: Splitter)
    ensures s == TokenTextSplitter(chunkSize, minChunkSizeChars, 0, 10000, true)
  {
    TokenTextSplitter(chunkSize, minChunkSizeChars, 0, 10000, true)
  }

  /**
   * ragEtl up to the hand-over to the splitter. `documents` is what the
   * chosen reader returned; the method returns that reader and the splitter.
   */
  method RagEtl(attach: Upload, source: Option<string>, chunkSize: int, minChunkSizeChars: int,
                documents: seq<Document>)
    returns (reader: Reader, splitter: Splitter)
    modifies set d | d in documents
    ensures reader == PickReader(attach, UploadResource(attach))
    ensures reader.resource.filename == Some(ResourceFilename(attach))
    ensures forall d :: d in documents ==>
      d.text == old(d.text) && d.metadata == Overwrite(old(d.metadata), RagFields(source, attach))
    ensures splitter == RagSplitter(chunkSize, minChunkSizeChars)
  {
    var resource := UploadResource(attach);
    reader := PickReader(attach, resource);
    StampDocuments(documents, source, attach);
    splitter := RagSplitter(chunkSize, minChunkSizeChars);
  }

  const FilterPrefix := "source == '"

  /** The filter expression for a source: the source quoted verbatim, without escaping. */
  function SourceFilter(source: string): (r: string)
    ensures StartsWith(r, FilterPrefix) && EndsWith(r, "'")
    ensures |r| == |FilterPrefix| + |source| + 1
    ensures r[|FilterPrefix|..|r| - 1] == source
  {
    FilterPrefix + source + "'"
  }

  /** Different sources give different filter expressions. */
  lemma SourceFilterInjective(a: string, b: string)
    requires SourceFilter(a) == SourceFilter(b)
    ensures a == b
  {
  }

  /**
   * The search request of ragChat: the caller's threshold, three results,
   * and a filter on the source exactly when a non-empty source is given.
   */
  method BuildSearchRequest(score: real, source: Option<string>) returns (request: SearchRequest)
    ensures request.similarityThreshold == score && request.topK == 3
    ensures request.filterExpression.Some? <==> source.Some? && source.value != ""
    ensures request.filterExpression.Some? ==> request.filterExpression.value == SourceFilter(source.value)
  {
    var threshold := score;
    var topK := 3;
    var filter: Option<string> := None;
    if source.Some? && source.value != "" {
      filter := Some(SourceFilter(source.value));
    }
    request := SearchRequest(threshold, topK, filter);
  }
}
