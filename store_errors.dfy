/**
 * The sentinel errors of the document store (lesson_07/internal/documentstore/errors.go:5-9) and
 * the primary-key rule every collection's Put applies (lesson_07/internal/documentstore/collection.go:19-36,
 * lesson_05/documentstore/collection.go:19-28).
 */
module StoreErrors {
  import opened Wrappers
  import opened GoValues
  import opened DocumentModel

  datatype StoreError =
    | ErrConfigNotFound            // "config must be initialized"
    | ErrDocumentNotFound          // "document not found"
    | ErrCollectionAlreadyExist    // "collection already exists"
    | ErrCollectionNotFound        // "collection not found"
    | ErrUnsupportedDocumentField  // "unsupported document field"

  /** `CollectionConfig`; a collection holds a possibly nil pointer to one. */
  datatype CollectionConfig = CollectionConfig(primaryKey: string)

  /** How Put treats a document: the key it stores it under, the error it returns, or a panic. */
  datatype KeyOutcome = Key(key: string) | Rejected(err: StoreError) | Panics

  /** What Put returns: nil, one of its errors, or the panic of the key's type assertion. */
  datatype PutOutcome = Stored | Failed(err: StoreError) | Panicked

  /** The field `doc` stores `s` under `name` with the String tag, as Marshal writes a string member. */
  ghost predicate HasStringField(doc: Document, name: string, s: string)
  {
    name in doc.fields && doc.fields[name] == DocumentField(TypeString, Value(VString(s)))
  }

  /**
   * Put's checks: the configuration must be set, the primary-key field must exist and carry the
   * String tag; the type assertion `.(string)` on its value panics when the payload is not a Go string.
   */
  function PrimaryKey(config: Option<CollectionConfig>, doc: Document): (r: KeyOutcome)
    ensures r == Rejected(ErrConfigNotFound) <==> config.None?
    ensures r == Rejected(ErrUnsupportedDocumentField) <==>
      config.Some? && (config.value.primaryKey !in doc.fields || doc.fields[config.value.primaryKey].typ != TypeString)
    ensures r.Key? ==> config.Some? && HasStringField(doc, config.value.primaryKey, r.key)
    ensures r.Panics? <==>
      && config.Some? && config.value.primaryKey in doc.fields
      && doc.fields[config.value.primaryKey].typ == TypeString && !WellTagged(doc.fields[config.value.primaryKey])
  {
    if config.None? then Rejected(ErrConfigNotFound)
    else
      var pk := config.value.primaryKey;
      if pk !in doc.fields || doc.fields[pk].typ != TypeString then Rejected(ErrUnsupportedDocumentField)
      else if doc.fields[pk].value.Value? && doc.fields[pk].value.v.VString? then Key(doc.fields[pk].value.v.s)
      else Panics
  }

  /** A document whose primary-key field holds the string `s` is stored under `s`. */
  lemma PrimaryKeyOfStringField(pk: string, doc: Document, s: string)
    requires HasStringField(doc, pk, s)
    ensures PrimaryKey(Some(CollectionConfig(pk)), doc) == Key(s)
  {
  }
}
