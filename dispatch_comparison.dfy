/**
 * The two upload paths side by side: RagService1.pickReader tests
 * lower-cased prefixes and suffixes and always yields a reader, while
 * ETLService.extractFormFile tests the exact content type and otherwise
 * yields nothing.
 */
module DispatchComparison {
  import opened Wrappers
  import opened Strings
  import opened Documents
  import opened Readers
  import RagService
  import EtlService

  /** The literal content types below are already lower case. */
  lemma PlainTextIsLowerCase()
    ensures ToLower("text/plain") == "text/plain"
  {
    ToLowerOfLowerCase("text/plain");
  }

  /** A "text/plain" upload is read as text by both paths, whatever its name. */
  lemma PlainTextAgrees(name: Option<string>, bytes: seq<bv8>, resource: Resource)
    ensures RagService.PickReader(Upload(name, Some("text/plain"), bytes), resource).kind == TextReader
    ensures EtlService.FormFileReader("text/plain", resource) == Some(Reader(TextReader, resource))
  {
    var attach := Upload(name, Some("text/plain"), bytes);
    PlainTextIsLowerCase();
    assert RagService.NormalizedType(attach) == "text/plain";
    assert RagService.Detect(RagService.NormalizedName(attach), "text/plain") == RagService.Text;
  }

  /** A PDF declared under a ".txt" name: the RAG path reads it as text, the form path as PDF. */
  lemma PdfTypeWithTxtNameDisagrees(name: string, bytes: seq<bv8>, resource: Resource)
    requires EndsWith(name, ".txt")
    ensures RagService.PickReader(Upload(Some(name), Some("application/pdf"), bytes), resource).kind == TextReader
    ensures EtlService.FormFileReader("application/pdf", resource) == Some(Reader(PagePdfReader, resource))
  {
    LowerKeepsSuffix(name, ".txt");
    RagService.TxtNameBeatsPdfType(name, bytes, resource);
  }

  lemma CsvIsLowerCase()
    ensures ToLower("text/csv") == "text/csv"
  {
    ToLowerOfLowerCase("text/csv");
  }

  /** A nameless "text/csv" upload takes the CSV branch of pickReader. */
  lemma CsvDetected()
    ensures RagService.Detect("", "text/csv") == RagService.Csv
  {
    NotContainsWithoutFirstChar("text/csv", "msword");
  }

  /** A nameless CSV upload: the RAG path reads it with Tika, the form path extracts nothing. */
  lemma CsvOnlyReadByRag(bytes: seq<bv8>, resource: Resource)
    ensures RagService.PickReader(Upload(None, Some("text/csv"), bytes), resource).kind == TikaReader
    ensures EtlService.FormFileReader("text/csv", resource) == None
  {
    EtlService.UnrecognisedTypes(resource);
    var attach := Upload(None, Some("text/csv"), bytes);
    CsvIsLowerCase();
    assert RagService.NormalizedType(attach) == "text/csv";
    CsvDetected();
  }
}
