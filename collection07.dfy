/**
 * `Collection` of lesson_07/internal/documentstore/collection.go: a primary-key configuration and the
 * stored documents by key. Logging is left out. Put stores a pointer to a shallow copy of the
 * document; the copy shares its `Fields` map with the caller's document, and the model takes the
 * stored document to be the fields as they were at the call.
 */
module Lesson07Collection {
  import opened Wrappers
  import opened DocumentModel
  import opened StoreErrors

  class Collection {
    var Config: Option<CollectionConfig>
    var Items: map<string, Document>

    constructor (config: Option<CollectionConfig>, items: map<string, Document>)
      ensures Config == config && Items == items
    {
      Config := config;
      Items := items;
    }

    /**
     * Put: a rejected or panicking Put leaves Items alone; a successful one maps the key to `doc`,
     * keeps every other key, and grows Items by one exactly when the key is new.
     */
    method Put(doc: Document) returns (r: PutOutcome)
      modifies this
      ensures Config == old(Config)
      ensures PrimaryKey(Config, doc).Rejected? ==> r == Failed(PrimaryKey(Config, doc).err) && Items == old(Items)
      ensures PrimaryKey(Config, doc).Panics? ==> r == Panicked && Items == old(Items)
      ensures PrimaryKey(Config, doc).Key? ==>
        var key := PrimaryKey(Config, doc).key;
        && r == Stored
        && Items == old(Items)[key := doc]
        && |Items| == if key in old(Items) then |old(Items)| else |old(Items)| + 1
    {
      match PrimaryKey(Config, doc)
      case Rejected(e) =>
        return Failed(e);
      case Panics =>
        return Panicked;
      case Key(key) =>
        Items := Items[key := doc];
        return Stored;
    }

    /** Get: the stored document and true when the key is present, nothing and false otherwise. */
    method Get(key: string) returns (doc: Option<Document>, found: bool)
      ensures found <==> key in Items
      ensures found ==> doc == Some(Items[key])
      ensures !found ==> doc == None
    {
      if key !in Items {
        return None, false;
      }
      return Some(Items[key]), true;
    }

    /** Delete: true and exactly that key removed when present, false and no change otherwise. */
    method Delete(key: string) returns (deleted: bool)
      modifies this
      ensures Config == old(Config)
      ensures deleted <==> key in old(Items)
      ensures Items == old(Items) - {key}
      ensures deleted ==> |Items| == |old(Items)| - 1
    {
      if key !in Items {
        return false;
      }
      Items := Items - {key};
      return true;
    }

    /**
     * List: one document per stored key, in the unspecified order of Go's map iteration, which
     * `keys` records.
     */
    method List() returns (docs: seq<Document>, ghost keys: seq<string>)
      ensures Enumerates(keys, Items.Keys) && |docs| == |keys| == |Items|
      ensures forall i :: 0 <= i < |docs| ==> docs[i] == Items[keys[i]]
    {
      docs, keys := [], [];
      var rest := Items.Keys;
      while rest != {}
        invariant rest <= Items.Keys
        invariant Enumerates(keys, Items.Keys - rest)
        invariant |keys| + |rest| == |Items|
        invariant |docs| == |keys| && forall i :: 0 <= i < |docs| ==> docs[i] == Items[keys[i]]
        decreases rest
      {
        var k :| k in rest;
        docs, keys := docs + [Items[k]], keys + [k];
        rest := rest - {k};
      }
    }
  }
}
