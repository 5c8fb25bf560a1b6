# RAG ingestion and retrieval: reader dispatch, metadata stamping and request construction

This project models the logic that two Spring services of a retrieval-augmented-generation
prototype own themselves. Parsing, chunking, embedding, storage and chat are library calls;
what the services decide is listed here:

- **RagService1**: `pickReader` picks a document reader for an upload from its lower-cased filename
  and content type. The order is text, PDF, Word, CSV, JSON, XML, HTML, then a Tika fallback.
  `ragEtl` puts `source`, `filename` and `contentType` into every extracted document and builds a
  token splitter from the caller's sizes. `ragChat` builds the similarity-search request: the
  caller's threshold, three results, and a `source == '…'` filter only when a source is given.
- **ETLService**: `extractFormFile` compares the content type exactly. `text/plain` gets the text
  reader, `application/pdf` the PDF reader, and any type containing `word` gets Tika. Every other
  type gets no documents. `etlFormFile` puts `title`, `author` and `source` into every document,
  splits with a fixed splitter and replies with the two counts. `etlFromHtml` and `etlFromJson`
  configure a Jsoup or JSON reader on a URL.

Modules, one per source concept:

- `Wrappers` (`wrappers.dfy`): `Option` for Java's nullable references and `Result` for thrown exceptions.
- `Strings` (`strings.dfy`): ASCII lower-casing; `startsWith`, `endsWith` and `contains`; the decimal
  rendering of `%d`.
- `Documents` (`documents.dfy`): metadata values, uploads, resources, and the `Document` class. The
  class's metadata map is a field that `Put` updates in place.
- `Readers` (`readers.dfy`): the reader, splitter and search-request configurations. The two metadata
  lambdas passed to `JsonReader` are written as data: one constructor per lambda, applied by `Generate`.
- `RagService` (`rag_service.dfy`) and `EtlService` (`etl_service.dfy`): the two services.
- `DispatchComparison` (`dispatch_comparison.dfy`): lemmas on inputs where the two upload paths agree
  and where they differ.

`pickReader` is modelled in two steps. `Detect` is the first-match chain and returns which branch
fires; the branch names come from `pickReader`'s comments. `PickReader` maps that branch to its
reader. Each reader `.read()` is abstract: a method takes the documents the chosen reader returned
as a parameter (`documents`, `parsed`). It also takes the number of chunks the splitter produced
(`stored`) as a parameter.

Points where the code behaves in ways a reader might not expect:

- Each `pickReader` test is "a content-type prefix (a substring for Word) or a filename suffix",
  tried branch by branch. The declared type does not take precedence over the extension: a
  `.txt` name declared `application/pdf` is read as text.
- `pickReader` detects Word by `wordprocessingml`/`msword` and the `.doc`/`.docx` suffixes. Only
  `extractFormFile` uses the bare substring `word`.
- Both metadata loops overwrite keys the reader may already have set.
- `extractFormFile` returns an empty list for an unrecognised type; it does not raise an error.

## Model

| member | source | states |
|---|---|---|
| Strings.ToLower | src/main/java/com/example/demo/service/RagService1.java:84-85 | lower-casing keeps the length, maps each character through ASCII lower-casing and leaves no upper-case letter |
| Strings.NatToDecimal | src/main/java/com/example/demo/service/ETLService.java:48 | the `%d` text of a count is a non-empty run of digits without a leading zero whose decimal value is the count |
| Documents.Overwrite | src/main/java/com/example/demo/service/RagService1.java:66-68 | after the puts, the map's keys are the old keys plus the new ones; the new keys hold the new values, every other key keeps its value |
| Documents.Document.Put | src/main/java/com/example/demo/service/RagService1.java:66 | `Map.put` on a document's metadata sets that one key and changes nothing else |
| Readers.Generate | src/main/java/com/example/demo/service/RagService1.java:110-117 | the `pickReader` JSON lambda always returns exactly filename and contentType; the `etlFromJson` lambda returns title, author and url, or throws when title (checked first) or author is missing or null |
| RagService.Detect | src/main/java/com/example/demo/service/RagService1.java:87-138 | the branch taken matches, and no branch earlier in the order text, PDF, Word, CSV, JSON, XML, HTML matches; the fallback is taken exactly when none matches |
| RagService.FirstMatchIsUnique | src/main/java/com/example/demo/service/RagService1.java:87-138 | the first-match statement determines the branch: any branch satisfying it is the one Detect returns |
| RagService.WordChosenExactly | src/main/java/com/example/demo/service/RagService1.java:98-100 | Word is taken if and only if the type contains wordprocessingml or msword or the name ends .doc/.docx, and neither text nor PDF matched |
| RagService.HtmlChosenExactly | src/main/java/com/example/demo/service/RagService1.java:126-135 | HTML is taken if and only if no earlier branch matched and the type starts text/html or the name ends .html/.htm |
| RagService.PickReader | src/main/java/com/example/demo/service/RagService1.java:83-139 | each branch yields its reader on the given resource; Word, CSV, XML and the fallback all yield Tika; JSON reads "content" and tags the lower-cased name and type; HTML reads "body" as UTF-8 |
| RagService.NullReadAsEmpty | src/main/java/com/example/demo/service/RagService1.java:84-85 | a null filename or content type picks the same reader as the empty string |
| RagService.PickReaderIgnoresCase | src/main/java/com/example/demo/service/RagService1.java:84-85 | lower-casing the filename and content type beforehand changes neither the reader nor its configuration |
| RagService.TxtNameBeatsPdfType | src/main/java/com/example/demo/service/RagService1.java:88-94 | a name ending .txt in any letter case is read as text even when the type is application/pdf |
| RagService.NormalizedName | src/main/java/com/example/demo/service/RagService1.java:84 | the filename pickReader tests: "" when it is null, otherwise its ASCII lower-casing, with no upper-case letter left |
| RagService.NormalizedType | src/main/java/com/example/demo/service/RagService1.java:85 | the content type pickReader tests: "" when it is null, otherwise its ASCII lower-casing, with no upper-case letter left |
| RagService.ResourceFilename | src/main/java/com/example/demo/service/RagService1.java:53-57 | the resource reports the original filename, or "upload.bin" when it is null |
| RagService.UploadResource | src/main/java/com/example/demo/service/RagService1.java:53-57 | the resource holds the upload's bytes and reports ResourceFilename, so its filename is never null |
| RagService.PutsAreOverwrite | src/main/java/com/example/demo/service/RagService1.java:66-68 | the three puts of one loop pass equal one overwrite by source, filename and contentType |
| RagService.StampDocuments | src/main/java/com/example/demo/service/RagService1.java:65-69 | after the loop every listed document has the caller's source, the original filename and the declared type, overwriting earlier values; its other keys and its text are unchanged |
| RagService.RagSplitter | src/main/java/com/example/demo/service/RagService1.java:72 | the splitter is (chunkSize, minChunkSizeChars, 0, 10000, true) with the first two from the caller |
| RagService.RagEtl | src/main/java/com/example/demo/service/RagService1.java:51-73 | ragEtl picks the reader on the upload's resource (named by ResourceFilename), stamps every document and builds the splitter |
| RagService.SourceFilter | src/main/java/com/example/demo/service/RagService1.java:149 | the filter is "source == '" followed by the source verbatim (no escaping) and a closing quote |
| RagService.SourceFilterInjective | src/main/java/com/example/demo/service/RagService1.java:149 | different sources give different filter expressions |
| RagService.BuildSearchRequest | src/main/java/com/example/demo/service/RagService1.java:144-152 | the request carries the caller's threshold and topK 3, and has a filter if and only if the source is non-null and non-empty; that filter is SourceFilter of the source |
| EtlService.FormResource | src/main/java/com/example/demo/service/ETLService.java:56-57 | the resource holds the upload's bytes and reports no filename |
| EtlService.FormFileReader | src/main/java/com/example/demo/service/ETLService.java:61-76 | exactly "text/plain" gives the text reader, exactly "application/pdf" the PDF reader, otherwise a type containing "word" gives Tika, and every other type gives no reader |
| EtlService.ExtractFormFile | src/main/java/com/example/demo/service/ETLService.java:51-79 | the documents are the chosen reader's output, or empty when no reader is chosen; the filename is never consulted; a null type is excluded because `extractFormFile` calls `equals` on it |
| EtlService.UnrecognisedTypes | src/main/java/com/example/demo/service/ETLService.java:59-78 | "text/plain; charset=utf-8", "text/csv" and the upper-case "Application/PDF" give no reader, hence no documents: the comparison is exact and case-sensitive |
| EtlService.WordTypesGoToTika | src/main/java/com/example/demo/service/ETLService.java:71-75 | the msword and the wordprocessingml content types both give Tika |
| EtlService.PutsAreOverwrite | src/main/java/com/example/demo/service/ETLService.java:38-40 | the three puts of one loop pass equal one overwrite by title, author and source |
| EtlService.StampDocuments | src/main/java/com/example/demo/service/ETLService.java:36-41 | after the loop every document has the caller's title and author and the original filename as source; its other keys and its text are unchanged |
| EtlService.TransformSplitter | src/main/java/com/example/demo/service/ETLService.java:83 | transform always uses the splitter (200, 50, 0, 10000, false) |
| EtlService.ParseSummaryOfDigits | src/main/java/com/example/demo/service/ETLService.java:48 | a reply of the summary's shape is read back into its two numbers |
| EtlService.Summary | src/main/java/com/example/demo/service/ETLService.java:48 | the reply is the %d text of the extracted count, then "개를 ", then the %d text of the stored count, then "로 쪼개어서 VectorStore에 저장함." |
| EtlService.SummaryRoundTrip | src/main/java/com/example/demo/service/ETLService.java:48 | the reply reports the pre-split count first and the post-split count second, and both can be recovered from it |
| EtlService.SummaryInjective | src/main/java/com/example/demo/service/ETLService.java:48 | different pairs of counts give different replies |
| EtlService.EtlFormFile | src/main/java/com/example/demo/service/ETLService.java:33-49 | extraction as ExtractFormFile, the extracted documents stamped and the rest untouched, the fixed splitter, and a reply built from the extracted count and the stored count |
| EtlService.EtlFromHtml | src/main/java/com/example/demo/service/ETLService.java:88-115 | a Jsoup reader on the URL with charset UTF-8, selector "#content" and metadata {title, author, url}, the default splitter and the fixed reply; a null URL or a null title or author throws |
| EtlService.EtlFromJson | src/main/java/com/example/demo/service/ETLService.java:119-145 | a JSON reader on the URL with keys "date" and "content" and the title/author/url lambda, the default splitter and the fixed reply |
| EtlService.JsonMetadata | src/main/java/com/example/demo/service/ETLService.java:124-131 | each JSON object is tagged with exactly its own title and author and the URL, and the lambda throws when title or author is missing |
| DispatchComparison.PlainTextAgrees | src/main/java/com/example/demo/service/RagService1.java:88-90 | a "text/plain" upload is read as text by both paths, whatever the filename |
| DispatchComparison.PdfTypeWithTxtNameDisagrees | src/main/java/com/example/demo/service/RagService1.java:88-94 | with a .txt name and type application/pdf, the RAG path reads text while the form path reads PDF |
| DispatchComparison.CsvOnlyReadByRag | src/main/java/com/example/demo/service/RagService1.java:102-105 | a nameless text/csv upload is read by Tika on the RAG path and yields nothing on the form path |

## Left out

- Document parsing: each reader's `read()` is library code. It is modelled only by the documents it is assumed to have returned.
- Chunking: `TokenTextSplitter.apply` is library code. The model keeps the configuration tuple and, for `etlFormFile`, the number of chunks as a parameter. No chunking algorithm is modelled. When `ragEtl` reassigns `documents` to the splitter's output, that is not modelled either.
- The values of the no-argument `TokenTextSplitter` and the Jsoup configuration fields that `pickReader` and `etlFromHtml` do not set belong to the library. An unset additional-metadata map is modelled as empty.
- I/O and external services: `vectorStore.add`, the `TRUNCATE TABLE vector_store` of `clearVectorStore`, the `ChatClient` prompt and its advisors in `ragChat`, fetching a `UrlResource`, and `getBytes` failing.
- URL syntax checking (`MalformedURLException`) belongs to the library. Only a null URL is modelled as an error.
- Logging, Lombok and dependency injection are plumbing.
- BuildSearchRequest: does not model the library builder's checks. It rejects a similarity threshold outside [0, 1], and it may parse the filter text when `filterExpression` is called, so a source containing `'` (such as `O'Brien`) could make `ragChat` throw where the model returns a request. Both checks are library code. The Java `double` score is modelled as a `real` that is only copied.
- Strings.ToLower: models Java's locale-sensitive `toLowerCase` as ASCII lower-casing. Non-ASCII letters that Java would fold (the Kelvin sign to `k`, say) are left unchanged. Under a Turkish default locale Java also lower-cases the ASCII letter `I` to dotless `ı`, so there "TEXT/PLAIN" or "APPLICATION/PDF" would miss their `pickReader` branches while the model matches them; the model assumes a locale without that rule.
- Strings.NatToDecimal: assumes a default locale whose digits are ASCII. The counts are list sizes, so they are never negative.
- ExtractFormFile: a null content type is a precondition, because `extractFormFile` calls `equals` on it and would throw.
- Aliasing between distinct documents' metadata maps is not modelled. Each `Document` owns its map as a field. The same document object listed twice is handled.
- The document count is unchanged by both loops, because the list is a value that the loops only read.
