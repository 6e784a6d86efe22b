/**
 * `Store` of lesson_04/documentstore/store.go: the first store, reporting with booleans instead of
 * errors. Its collections are those of lesson_05/documentstore/collection.go (lesson_04's collection
 * file is not part of this model).
 */
module Lesson04Store {
  import opened Wrappers
  import opened StoreErrors
  import opened Lesson05Collection

  class Store {
    var Collections: map<string, Collection>

    /** NewStore: a non-nil, empty collections map. */
    constructor ()
      ensures Collections == map[]
    {
      Collections := map[];
    }

    /** CreateCollection: `(false, nil)` for an existing name, with no change; otherwise `(true, c)` with `c` new and stored under the name. */
    method CreateCollection(name: string, cfg: Option<CollectionConfig>) returns (created: bool, c: Collection?)
      modifies this
      ensures created <==> name !in old(Collections)
      ensures !created ==> c == null && Collections == old(Collections)
      ensures created ==>
        && c != null && fresh(c) && c.Config == cfg && c.Items == map[]
        && Collections == old(Collections)[name := c]
    {
      if name in Collections {
        return false, null;
      }
      c := new Collection(cfg);
      Collections := Collections[name := c];
      created := true;
    }

    /** GetCollection: `(Collections[name], true)` when present, `(nil, false)` otherwise. */
    method GetCollection(name: string) returns (c: Collection?, found: bool)
      ensures found <==> name in Collections
      ensures c == if found then Collections[name] else null
    {
      found := name in Collections;
      c := if found then Collections[name] else null;
    }

    /** DeleteCollection: removes the name and says whether it was present. */
    method DeleteCollection(name: string) returns (hadKey: bool)
      modifies this
      ensures hadKey <==> name in old(Collections)
      ensures Collections == old(Collections) - {name}
    {
      hadKey := name in Collections;
      Collections := Collections - {name};
    }
  }

  /** GetCollection finds the very collection CreateCollection returned; a duplicate create returns `(false, nil)`. */
  method CreateTwiceThenGet(name: string, cfg: CollectionConfig) returns (created: Collection?, again: bool, againC: Collection?, got: Collection?)
    ensures created != null && created.Config == Some(cfg)
    ensures !again && againC == null
    ensures got == created
  {
    var s := new Store();
    var ok;
    ok, created := s.CreateCollection(name, Some(cfg));
    again, againC := s.CreateCollection(name, Some(cfg));
    var found;
    got, found := s.GetCollection(name);
  }

  /** Deleting a present collection returns true, deleting it again returns false, and it can no longer be found. */
  method DeleteTwice(name: string, cfg: CollectionConfig) returns (first: bool, second: bool, found: bool)
    ensures first && !second && !found
  {
    var s := new Store();
    var ok, c := s.CreateCollection(name, Some(cfg));
    first := s.DeleteCollection(name);
    second := s.DeleteCollection(name);
    var g;
    g, found := s.GetCollection(name);
  }
}
