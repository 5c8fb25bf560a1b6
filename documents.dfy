/**
 * The values the services handle: uploaded files, the resources readers are
 * built on, and the extracted documents whose metadata maps the services
 * update in place.
 */
module Documents {
  import opened Wrappers

  /**
   * A metadata value: Java's Map<String, Object> allows null, strings and
   * numbers (a PDF page number). A parsed JSON object can also hold booleans,
   * floating-point numbers, arrays and nested objects; the services only test
   * such a value against null and copy it, so it is kept opaque, named by its
   * JSON type.
   */
  datatype MetaValue = NullValue | StrValue(s: string) | IntValue(i: int) | OtherValue(tag: string)

  type Metadata = map<string, MetaValue>

  /** The metadata value a nullable Java string becomes when it is put into a map. */
  function Boxed(s: Option<string>): (v: MetaValue)
    ensures v == NullValue <==> s.None?
    ensures s.Some? ==> v == StrValue(s.value)
  {
    match s
    case None => NullValue
    case Some(t) => StrValue(t)
  }

  /**
   * The map after putting every entry of `fields` into `m`: the keys of
   * `fields` take its values, whatever `m` held for them, and every other
   * key of `m` keeps its value.
   */
  function Overwrite(m: Metadata, fields: Metadata): (r: Metadata)
    ensures r.Keys == m.Keys + fields.Keys
    ensures forall k :: k in fields ==> r[k] == fields[k]
    ensures forall k :: k in m && k !in fields ==> r[k] == m[k]
  {
    m + fields
  }

  /** Putting the same fields twice is the same as putting them once. */
  lemma OverwriteIdempotent(m: Metadata, fields: Metadata)
    ensures Overwrite(Overwrite(m, fields), fields) == Overwrite(m, fields)
  {
  }

  /** A multipart upload: the original filename and the declared content type may each be null. */
  datatype Upload = Upload(originalFilename: Option<string>, contentType: Option<string>, bytes: seq<bv8>)

  /** What a reader is built on: bytes in memory, with the name getFilename reports, or a URL. */
  datatype Resource = ByteArray(bytes: seq<bv8>, filename: Option<string>) | Url(url: string)

  /** An extracted document; readers produce them and the services put metadata into them. */
  class Document {
    var text: string
    var metadata: Metadata

    constructor (text: string, metadata: Metadata)
      ensures this.text == text && this.metadata == metadata
    {
      this.text := text;
      this.metadata := metadata;
    }

    /** Map.put on this document's metadata map. */
    method Put(key: string, value: MetaValue)
      modifies this
      ensures metadata == old(metadata)[key := value]
      ensures text == old(text)
    {
      metadata := metadata[key := value];
    }
  }
}
