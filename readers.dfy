/**
 * The reader, splitter and search-request configurations the services build.
 * Reading, splitting and searching themselves happen in the library and are
 * not part of this model; only the configuration values are.
 */
module Readers {
  import opened Wrappers
  import opened Documents

  /** An exception a constructor throws: a null handed to Map.of, or a null URL handed to UrlResource. */
  datatype Error = NullArgument(argument: string) | IllegalArgument(argument: string)

  /**
   * The metadata lambdas handed to JsonReader, one constructor per lambda
   * written in pickReader and etlFromJson; Generate applies one to a parsed JSON object.
   */
  datatype MetadataGenerator =
    | FilenameAndType(filename: string, contentType: string)
    | TitleAuthorUrl(url: string)

  /** A JSON object as the reader hands it to a metadata lambda. */
  type JsonMap = map<string, MetaValue>

  /** Map.get: null when the key is missing. */
  function Get(m: JsonMap, key: string): MetaValue {
    if key in m then m[key] else NullValue
  }

  /**
   * The metadata a generator returns for one JSON object. Map.of refuses a
   * null value, so the title/author/url lambda throws when the object has no
   * non-null "title" (checked first) or "author".
   */
  function Generate(g: MetadataGenerator, json: JsonMap): (r: Result<Metadata, Error>)
    ensures g.FilenameAndType? ==>
      r == Ok(map["filename" := StrValue(g.filename), "contentType" := StrValue(g.contentType)])
    ensures g.TitleAuthorUrl? ==>
      (r.Ok? <==> Get(json, "title") != NullValue && Get(json, "author") != NullValue)
    ensures g.TitleAuthorUrl? && r.Ok? ==>
      r.value.Keys == {"title", "author", "url"} &&
      r.value["title"] == json["title"] && r.value["author"] == json["author"] &&
      r.value["url"] == StrValue(g.url)
    ensures g.TitleAuthorUrl? && r.Err? ==>
      r.error == NullArgument(if Get(json, "title") == NullValue then "title" else "author")
  {
    match g
    case FilenameAndType(name, ct) =>
      Ok(map["filename" := StrValue(name), "contentType" := StrValue(ct)])
    case TitleAuthorUrl(url) =>
      var title := Get(json, "title");
      var author := Get(json, "author");
      if title == NullValue then Err(NullArgument("title"))
      else if author == NullValue then Err(NullArgument("author"))
      else Ok(map["title" := title, "author" := author, "url" := StrValue(url)])
  }

  /**
   * JsoupDocumentReaderConfig: the charset, the CSS selector and the
   * metadata added to every document (empty when the builder is not given any).
   */
  datatype JsoupConfig = JsoupConfig(charset: string, selector: string, additionalMetadata: Metadata)

  /** Which library reader is built, with its configuration. */
  datatype ReaderKind =
    | TextReader
    | PagePdfReader
    | TikaReader
    | JsonReader(generator: MetadataGenerator, jsonKeysToUse: seq<string>)
    | JsoupReader(config: JsoupConfig)

  /** A reader and the resource it reads. */
  datatype Reader = Reader(kind: ReaderKind, resource: Resource)

  /**
   * The TokenTextSplitter constructor arguments: chunk size, minimum chunk
   * size in characters, minimum chunk length to embed, maximum number of
   * chunks, keep separator. DefaultSplitter is the no-argument constructor,
   * whose values are the library's.
   */
  datatype Splitter =
    | DefaultSplitter
    | TokenTextSplitter(chunkSize: int, minChunkSizeChars: int, minChunkLengthToEmbed: int,
                        maxNumChunks: int, keepSeparator: bool)

  /** The similarity-search request handed to the question-answer advisor. */
  datatype SearchRequest = SearchRequest(similarityThreshold: real, topK: int, filterExpression: Option<string>)
}
