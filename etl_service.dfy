/**
 * ETLService: ingestion of an uploaded text, PDF or Word file with a title
 * and an author (etlFormFile, extractFormFile, transform), and of a remote
 * HTML page or JSON document (etlFromHtml, etlFromJson).
 */
module EtlService {
  import opened Wrappers
  import opened Strings
  import opened Documents
  import opened Readers

  /** The resource extractFormFile reads: the upload's bytes, with no filename. */
  function FormResource(attach: Upload): (r: Resource)
    ensures r.ByteArray? && r.bytes == attach.bytes && r.filename.None?
  {
    ByteArray(attach.bytes, None)
  }

  /**
   * The reader extractFormFile builds for a declared content type, or None
   * when it builds none. "text/plain" and "application/pdf" must match
   * exactly, letter case included; any other type naming "word" goes to Tika.
   */
  function FormFileReader(contentType: string, resource: Resource): (r: Option<Reader>)
    ensures r.Some? ==> r.value.resource == resource
    ensures r.Some? && r.value.kind == TextReader <==> contentType == "text/plain"
    ensures r.Some? && r.value.kind == PagePdfReader <==> contentType == "application/pdf"
    ensures r.Some? && r.value.kind == TikaReader <==>
      contentType != "text/plain" && contentType != "application/pdf" && Contains(contentType, "word")
    ensures r.None? <==>
      contentType != "text/plain" && contentType != "application/pdf" && !Contains(contentType, "word")
  {
    if contentType == "text/plain" then Some(Reader(TextReader, resource))
    else if contentType == "application/pdf" then Some(Reader(PagePdfReader, resource))
    else if Contains(contentType, "word") then Some(Reader(TikaReader, resource))
    else None
  }

  /**
   * extractFormFile: the documents the chosen reader returned (`parsed`), or
   * no documents when no reader is chosen. The filename plays no part. The
   * source calls equals on the content type, so a null type is excluded.
   */
  method ExtractFormFile(attach: Upload, parsed: seq<Document>) returns (reader: Option<Reader>, documents: seq<Document>)
    requires attach.contentType.Some?
    ensures reader == FormFileReader(attach.contentType.value, FormResource(attach))
    ensures documents == if reader.Some? then parsed else []
  {
    var contentType := attach.contentType.value;
    var resource := FormResource(attach);
    reader := None;
    documents := [];
    if contentType == "text/plain" {
      reader := Some(Reader(TextReader, resource));
      documents := parsed;
    } else if contentType == "application/pdf" {
      reader := Some(Reader(PagePdfReader, resource));
      documents := parsed;
    } else if Contains(contentType, "word") {
      reader := Some(Reader(TikaReader, resource));
      documents := parsed;
    }
  }

  /**
   * Types outside the three branches give no reader, hence no documents: a
   * plain-text type with parameters, CSV, and an upper-case PDF type (the
   * comparison is case-sensitive).
   */
  lemma UnrecognisedTypes(resource: Resource)
    ensures FormFileReader("text/plain; charset=utf-8", resource) == None
    ensures FormFileReader("text/csv", resource) == None
    ensures FormFileReader("Application/PDF", resource) == None
  {
    NotContainsWithoutFirstChar("text/plain; charset=utf-8", "word");
    NotContainsWithoutFirstChar("text/csv", "word");
    NotContainsWithoutFirstChar("Application/PDF", "word");
  }

  /** Both Word content types go to Tika. */
  lemma WordTypesGoToTika(resource: Resource)
    ensures FormFileReader("application/msword", resource) == Some(Reader(TikaReader, resource))
    ensures FormFileReader("application/vnd.openxmlformats-officedocument.wordprocessingml.document", resource)
            == Some(Reader(TikaReader, resource))
  {
    var msword := "application/msword";
    assert StartsWith(msword[14..], "word");
    var docx := "application/vnd.openxmlformats-officedocument.wordprocessingml.document";
    assert StartsWith(docx[46..], "word");
  }

  /** The keys etlFormFile puts into every document: the caller's title and author, and the upload's filename as source. */
  function FormFields(title: Option<string>, author: Option<string>, attach: Upload): Metadata {
    map["title" := Boxed(title), "author" := Boxed(author), "source" := Boxed(attach.originalFilename)]
  }

  /** The three puts of the loop body amount to one overwrite by FormFields. */
  lemma PutsAreOverwrite(m: Metadata, title: Option<string>, author: Option<string>, attach: Upload)
    ensures m["title" := Boxed(title)]["author" := Boxed(author)]["source" := Boxed(attach.originalFilename)]
            == Overwrite(m, FormFields(title, author, attach))
  {
  }

  /**
   * The metadata loop of etlFormFile: every document gets title, author and
   * source, overwriting earlier values, and keeps every other key.
   */
  method StampDocuments(documents: seq<Document>, title: Option<string>, author: Option<string>, attach: Upload)
    modifies set d | d in documents
    ensures forall d :: d in documents ==>
      d.text == old(d.text) && d.metadata == Overwrite(old(d.metadata), FormFields(title, author, attach))
  {
    ghost var fields := FormFields(title, author, attach);
    for i := 0 to |documents|
      invariant forall d :: d in documents ==> d.text == old(d.text)
      invariant forall d :: d in documents[..i] ==> d.metadata == Overwrite(old(d.metadata), fields)
      invariant forall d :: d in documents && d !in documents[..i] ==> d.metadata == old(d.metadata)
    {
      var doc := documents[i];
      ghost var before := doc.metadata;
      doc.Put("title", Boxed(title));
      doc.Put("author", Boxed(author));
      doc.Put("source", Boxed(attach.originalFilename));
      PutsAreOverwrite(before, title, author, attach);
      if doc in documents[..i] {
        OverwriteIdempotent(old(doc.metadata), fields);
      }
      assert documents[..i + 1] == documents[..i] + [doc];
    }
  }

  /** The splitter of transform, the same for every call. */
  function TransformSplitter(): (s: Splitter)
    ensures s == TokenTextSplitter(200, 50, 0, 10000, false)
  {
    TokenTextSplitter(200, 50, 0, 10000, false)
  }

  const SummaryMiddle := "개를 "
  const SummaryTail := "로 쪼개어서 VectorStore에 저장함."

  /** The reply of etlFormFile: the number of extracted documents, then the number of chunks stored. */
  function Summary(extracted: nat, stored: nat): (r: string)
    ensures var k := |NatToDecimal(extracted)|;
      0 < k <= |r| && AllDigits(r[..k]) && DecimalValue(r[..k]) == extracted &&
      StartsWith(r[k..], SummaryMiddle)
    ensures EndsWith(r, SummaryTail)
    ensures var j := |r| - |SummaryTail| - |NatToDecimal(stored)|;
      |NatToDecimal(extracted)| + |SummaryMiddle| == j &&
      AllDigits(r[j..|r| - |SummaryTail|]) && DecimalValue(r[j..|r| - |SummaryTail|]) == stored
  {
    var e, t := NatToDecimal(extracted), NatToDecimal(stored);
    var r := e + SummaryMiddle + t + SummaryTail;
    assert r[..|e|] == e;
    assert r[|e|..][..|SummaryMiddle|] == SummaryMiddle;
    assert r[|r| - |SummaryTail|..] == SummaryTail;
    assert r[|e| + |SummaryMiddle|..|r| - |SummaryTail|] == t;
    r
  }

  /** Reads the two counts back from a reply of the form Summary produces. */
  function ParseSummary(s: string): Option<(nat, nat)> {
    var k := LeadingDigits(s);
    if k == 0 then None
    else
      match ParseStored(s[k..])
      case None => None
      case Some(stored) => Some((DecimalValue(s[..k]), stored))
  }

  /** Reads the stored count from the part of a reply after the extracted count. */
  function ParseStored(rest: string): Option<nat> {
    if !StartsWith(rest, SummaryMiddle) then None
    else
      var after := rest[|SummaryMiddle|..];
      var k := LeadingDigits(after);
      if k == 0 || after[k..] != SummaryTail then None
      else Some(DecimalValue(after[..k]))
  }

  /** The part after the extracted count is read back into the stored count. */
  lemma {:induction false} ParseStoredOfDigits(b: string)
    requires |b| > 0 && AllDigits(b)
    ensures ParseStored(SummaryMiddle + b + SummaryTail) == Some(DecimalValue(b))
  {
    var rest := SummaryMiddle + b + SummaryTail;
    assert rest[..|SummaryMiddle|] == SummaryMiddle;
    var after := rest[|SummaryMiddle|..];
    assert after == b + SummaryTail;
    LeadingDigitsOfDecimal(b, SummaryTail);
    assert after[..|b|] == b;
    assert after[|b|..] == SummaryTail;
  }

  /** A reply of Summary's shape, built from any two digit strings, is parsed into their values. */
  lemma {:induction false} ParseSummaryOfDigits(a: string, b: string)
    requires |a| > 0 && AllDigits(a) && |b| > 0 && AllDigits(b)
    ensures ParseSummary(a + SummaryMiddle + b + SummaryTail) == Some((DecimalValue(a), DecimalValue(b)))
  {
    var tail := SummaryMiddle + b + SummaryTail;
    var s := a + tail;
    assert s == a + SummaryMiddle + b + SummaryTail;
    LeadingDigitsOfDecimal(a, tail);
    assert s[..|a|] == a;
    assert s[|a|..] == tail;
    ParseStoredOfDigits(b);
  }

  /** The reply states the extracted count first and the stored count second, and both can be read back. */
  lemma SummaryRoundTrip(extracted: nat, stored: nat)
    ensures ParseSummary(Summary(extracted, stored)) == Some((extracted, stored))
  {
    ParseSummaryOfDigits(NatToDecimal(extracted), NatToDecimal(stored));
  }

  /** Different counts give different replies. */
  lemma SummaryInjective(e1: nat, s1: nat, e2: nat, s2: nat)
    requires Summary(e1, s1) == Summary(e2, s2)
    ensures e1 == e2 && s1 == s2
  {
    SummaryRoundTrip(e1, s1);
    SummaryRoundTrip(e2, s2);
  }

  /**
   * etlFormFile up to the hand-over to the store. `parsed` is what the
   * chosen reader returned and `stored` the number of chunks the splitter
   * made of the documents.
   */
  method EtlFormFile(title: Option<string>, author: Option<string>, attach: Upload,
                     parsed: seq<Document>, stored: nat)
    returns (reader: Option<Reader>, documents: seq<Document>, splitter: Splitter, reply: string)
    requires attach.contentType.Some?
    modifies set d | d in parsed
    ensures reader == FormFileReader(attach.contentType.value, FormResource(attach))
    ensures documents == if reader.Some? then parsed else []
    ensures forall d :: d in documents ==>
      d.text == old(d.text) && d.metadata == Overwrite(old(d.metadata), FormFields(title, author, attach))
    ensures forall d :: d in parsed && d !in documents ==>
      d.text == old(d.text) && d.metadata == old(d.metadata)
    ensures splitter == TransformSplitter()
    ensures reply == Summary(|documents|, stored)
  {
    reader, documents := ExtractFormFile(attach, parsed);
    StampDocuments(documents, title, author, attach);
    splitter := TransformSplitter();
    reply := Summary(|documents|, stored);
  }

  /** What a remote ingestion builds and replies: its reader, its splitter and its reply. */
  datatype Ingestion = Ingestion(reader: Reader, splitter: Splitter, reply: string)

  /**
   * etlFromHtml: a Jsoup reader on the URL that reads the "#content"
   * element as UTF-8 and adds title, author and url to every document, the
   * default splitter, and a fixed reply. A null URL is refused by
   * UrlResource first; a null title or author by Map.of.
   */
  function EtlFromHtml(title: Option<string>, author: Option<string>, url: Option<string>): (r: Result<Ingestion, Error>)
    ensures r.Ok? <==> title.Some? && author.Some? && url.Some?
    ensures r.Err? ==> (r.error ==
      if url.None? then IllegalArgument("url") else if title.None? then NullArgument("title") else NullArgument("author"))
    ensures r.Ok? ==>
      r.value.reader.resource == Url(url.value) &&
      r.value.reader.kind == JsoupReader(JsoupConfig("UTF-8", "#content",
        map["title" := StrValue(title.value), "author" := StrValue(author.value), "url" := StrValue(url.value)])) &&
      r.value.splitter == DefaultSplitter &&
      r.value.reply == "html에서 etl완료"
  {
    if url.None? then Err(IllegalArgument("url"))
    else if title.None? then Err(NullArgument("title"))
    else if author.None? then Err(NullArgument("author"))
    else
      var metadata := map["title" := StrValue(title.value), "author" := StrValue(author.value), "url" := StrValue(url.value)];
      var config := JsoupConfig("UTF-8", "#content", metadata);
      Ok(Ingestion(Reader(JsoupReader(config), Url(url.value)), DefaultSplitter, "html에서 etl완료"))
  }

  /**
   * etlFromJson: a JSON reader on the URL that embeds the "date" and
   * "content" fields and tags each document with the object's title and
   * author and the URL, the default splitter, and a fixed reply.
   */
  function EtlFromJson(url: Option<string>): (r: Result<Ingestion, Error>)
    ensures r.Ok? <==> url.Some?
    ensures r.Err? ==> r.error == IllegalArgument("url")
    ensures r.Ok? ==>
      r.value.reader == Reader(JsonReader(TitleAuthorUrl(url.value), ["date", "content"]), Url(url.value)) &&
      r.value.splitter == DefaultSplitter &&
      r.value.reply == "JSON에서 추출-변환-적재 완료 했습니다."
  {
    if url.None? then Err(IllegalArgument("url"))
    else Ok(Ingestion(Reader(JsonReader(TitleAuthorUrl(url.value), ["date", "content"]), Url(url.value)),
                      DefaultSplitter, "JSON에서 추출-변환-적재 완료 했습니다."))
  }

  /**
   * Every JSON object the etlFromJson reader tags gets exactly title,
   * author and url; an object without a title or an author makes the
   * lambda throw.
   */
  lemma JsonMetadata(url: string, json: JsonMap)
    ensures var r := EtlFromJson(Some(url));
      var m := Generate(r.value.reader.kind.generator, json);
      (m.Ok? <==> Get(json, "title") != NullValue && Get(json, "author") != NullValue) &&
      (m.Ok? ==> m.value == map["title" := json["title"], "author" := json["author"], "url" := StrValue(url)])
  {
  }
}
