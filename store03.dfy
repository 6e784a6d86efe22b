/**
 * lesson_03/documentstore/documentstore.go: the first store, a package-level map from key to
 * *Document with package-level Put, Get, Delete and List. The package state is the class
 * `Documents`; documents are objects, because the store keeps the caller's pointer and hands the
 * same pointer back. The lesson's DocumentField has the shape of lesson_07's and is reused here.
 */
module Lesson03Store {
  import opened Wrappers
  import opened GoValues
  import opened DocumentModel

  class Document {
    var Fields: map<string, DocumentField>

    constructor (fields: map<string, DocumentField>)
      ensures Fields == fields
    {
      Fields := fields;
    }
  }

  /** The key Put stores a document under: its "key" field's text, when the field has the String tag and holds a Go string. */
  function StoredKey(fields: map<string, DocumentField>): (r: Option<string>)
    ensures r.Some? <==> "key" in fields && fields["key"].typ == TypeString && WellTagged(fields["key"])
    ensures r.Some? ==> fields["key"] == DocumentField(TypeString, Value(VString(r.value)))
  {
    if "key" !in fields then None
    else
      var field := fields["key"];
      if field.typ != TypeString then None
      else if field.value.Value? && field.value.v.VString? then Some(field.value.v.s)
      else None
  }

  class Documents {
    var documents: map<string, Document>

    constructor ()
      ensures documents == map[]
    {
      documents := map[];
    }

    /**
     * Put: a nil document panics on its first field lookup and nothing is stored (`panicked`); without a
     * usable "key" field nothing happens; otherwise the pointer is stored under the key, replacing any earlier one.
     */
    method Put(doc: Document?) returns (panicked: bool)
      modifies this
      ensures panicked <==> doc == null
      ensures doc == null ==> documents == old(documents)
      ensures doc != null && StoredKey(doc.Fields).None? ==> documents == old(documents)
      ensures doc != null && StoredKey(doc.Fields).Some? ==> documents == old(documents)[StoredKey(doc.Fields).value := doc]
    {
      if doc == null {
        return true;
      }
      panicked := false;
      if "key" !in doc.Fields {
        return;
      }
      var field := doc.Fields["key"];
      if field.typ != TypeString {
        return;
      }
      if !(field.value.Value? && field.value.v.VString?) {
        return;
      }
      documents := documents[field.value.v.s := doc];
    }

    /** Get: the stored pointer and true, or nil and false. */
    method Get(key: string) returns (doc: Document?, found: bool)
      ensures found <==> key in documents
      ensures doc == if found then documents[key] else null
    {
      if key !in documents {
        return null, false;
      }
      return documents[key], true;
    }

    /** Delete: the key is absent afterwards, other keys are kept, and the result says whether it was present. */
    method Delete(key: string) returns (existed: bool)
      modifies this
      ensures existed <==> key in old(documents)
      ensures documents == old(documents) - {key}
    {
      existed := key in documents;
      documents := documents - {key};
    }

    /** List: every stored pointer once, in the order `keys` records. */
    method List() returns (docs: seq<Document>, ghost keys: seq<string>)
      ensures Enumerates(keys, documents.Keys) && |docs| == |keys| == |documents|
      ensures forall i :: 0 <= i < |docs| ==> docs[i] == documents[keys[i]]
    {
      docs, keys := [], [];
      var rest := documents.Keys;
      while rest != {}
        invariant rest <= documents.Keys
        invariant Enumerates(keys, documents.Keys - rest)
        invariant |keys| + |rest| == |documents|
        invariant |docs| == |keys| && forall i :: 0 <= i < |docs| ==> docs[i] == documents[keys[i]]
        decreases rest
      {
        var k :| k in rest;
        docs, keys := docs + [documents[k]], keys + [k];
        rest := rest - {k};
      }
    }
  }

  /** Get returns the very pointer Put stored, not a copy; a second Put under the same key replaces it. */
  method PutThenGet(first: Document, second: Document) returns (got: Document?, found: bool)
    requires StoredKey(first.Fields).Some? && StoredKey(second.Fields) == StoredKey(first.Fields)
    ensures found && got == second
  {
    var store := new Documents();
    var _ := store.Put(first);
    var _ := store.Put(second);
    got, found := store.Get(StoredKey(first.Fields).value);
  }
}
