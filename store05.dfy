/**
 * `Store` of lesson_05/documentstore/store.go: named collections of lesson_05/documentstore/collection.go.
 * CreateCollection does not check the configuration, so a collection may be created with none.
 */
module Lesson05Store {
  import opened Wrappers
  import opened DocumentModel
  import opened StoreErrors
  import opened Lesson05Collection

  class Store {
    var Collections: map<string, Collection>

    /** NewStore: no collections. */
    constructor ()
      ensures Collections == map[]
    {
      Collections := map[];
    }

    /**
     * CreateCollection: an existing name is rejected and nothing changes; a fresh name gets a new
     * collection with the given configuration, even a nil one, and no documents.
     */
    method CreateCollection(name: string, cfg: Option<CollectionConfig>) returns (c: Collection?, err: Option<StoreError>)
      modifies this
      ensures name in old(Collections) ==>
        c == null && err == Some(ErrCollectionAlreadyExist) && Collections == old(Collections)
      ensures name !in old(Collections) ==>
        && err.None? && c != null && fresh(c)
        && c.Config == cfg && c.Items == map[]
        && Collections == old(Collections)[name := c]
    {
      if name in Collections {
        return null, Some(ErrCollectionAlreadyExist);
      }
      c := new Collection(cfg);
      Collections := Collections[name := c];
      err := None;
    }

    /** GetCollection: the stored collection, or ErrCollectionNotFound. */
    method GetCollection(name: string) returns (c: Collection?, err: Option<StoreError>)
      ensures name in Collections ==> c == Collections[name] && err.None?
      ensures name !in Collections ==> c == null && err == Some(ErrCollectionNotFound)
    {
      if name !in Collections {
        return null, Some(ErrCollectionNotFound);
      }
      return Collections[name], None;
    }

    /** DeleteCollection: the name is removed unconditionally; an absent name is reported as ErrCollectionNotFound. */
    method DeleteCollection(name: string) returns (err: Option<StoreError>)
      modifies this
      ensures err == Some(ErrCollectionNotFound) <==> name !in old(Collections)
      ensures err.None? <==> name in old(Collections)
      ensures Collections == old(Collections) - {name}
    {
      var hasKey := name in Collections;
      Collections := Collections - {name};
      if !hasKey {
        return Some(ErrCollectionNotFound);
      }
      err := None;
    }
  }

  /** A collection created without a configuration rejects every document with ErrConfigNotFound and stays empty. */
  method NilConfigRejectsPut(name: string, doc: Document) returns (r: PutOutcome, items: map<string, Document>)
    ensures r == Failed(ErrConfigNotFound) && items == map[]
  {
    var s := new Store();
    var c, e := s.CreateCollection(name, None);
    r := c.Put(doc);
    items := c.Items;
  }
}
