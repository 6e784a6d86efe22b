/**
 * `Collection` of lesson_05/documentstore/collection.go: the same primary-key rule as lesson_07's,
 * without logging; its Delete removes the key unconditionally and reports whether it was there.
 */
module Lesson05Collection {
  import opened Wrappers
  import opened DocumentModel
  import opened StoreErrors

  class Collection {
    var Config: Option<CollectionConfig>
    var Items: map<string, Document>

    constructor (config: Option<CollectionConfig>)
      ensures Config == config && Items == map[]
    {
      Config := config;
      Items := map[];
    }

    /** Put: stores `doc` under the string in its primary-key field, replacing any earlier document for that key. */
    method Put(doc: Document) returns (r: PutOutcome)
      modifies this
      ensures Config == old(Config)
      ensures PrimaryKey(Config, doc).Rejected? ==> r == Failed(PrimaryKey(Config, doc).err) && Items == old(Items)
      ensures PrimaryKey(Config, doc).Panics? ==> r == Panicked && Items == old(Items)
      ensures PrimaryKey(Config, doc).Key? ==> r == Stored && Items == old(Items)[PrimaryKey(Config, doc).key := doc]
    {
      if Config.None? {
        return Failed(ErrConfigNotFound);
      }
      var pk := Config.value.primaryKey;
      if pk !in doc.fields || doc.fields[pk].typ != DocumentFieldType.TypeString {
        return Failed(ErrUnsupportedDocumentField);
      }
      var field := doc.fields[pk];
      if !(field.value.Value? && field.value.v.VString?) {
        return Panicked;
      }
      Items := Items[field.value.v.s := doc];
      return Stored;
    }

    /** Get: `(Items[key], key in Items)`, a nil document when the key is absent. */
    method Get(key: string) returns (doc: Option<Document>, found: bool)
      ensures found <==> key in Items
      ensures doc == if found then Some(Items[key]) else None
    {
      found := key in Items;
      doc := if found then Some(Items[key]) else None;
    }

    /** Delete: afterwards the key is absent and all other keys are as before; the result says whether it was present. */
    method Delete(key: string) returns (hadKey: bool)
      modifies this
      ensures Config == old(Config)
      ensures hadKey <==> key in old(Items)
      ensures Items == old(Items) - {key}
    {
      hadKey := key in Items;
      Items := Items - {key};
    }

    /** List: every stored document once, in the order `keys` records. */
    method List() returns (docs: seq<Document>, ghost keys: seq<string>)
      ensures Enumerates(keys, Items.Keys) && |docs| == |keys| == |Items|
      ensures forall i :: 0 <= i < |docs| ==> docs[i] == Items[keys[i]]
    {
      docs, keys := [], [];
      var rest := Items.Keys;
      while rest != {}
        invariant rest <= Items.Keys
        invariant Enumerates(keys, Items.Keys - rest)
        invariant |keys| + |rest| == |Items|
        invariant |docs| == |keys| && forall i :: 0 <= i < |docs| ==> docs[i] == Items[keys[i]]
        decreases rest
      {
        var k :| k in rest;
        docs, keys := docs + [Items[k]], keys + [k];
        rest := rest - {k};
      }
    }
  }
}
