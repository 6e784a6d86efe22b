/**
 * `Store` of lesson_06/documentstore/store.go: named collections, with the configuration check
 * CreateCollection gained in this lesson. The store's collections are those of
 * lesson_07/internal/documentstore/collection.go (lesson_06's own collection file is not part of
 * this model). Persistence goes through `encoding/gob` and the file system, which are parameters
 * here: `encode`, `decode`, `readFile` and `writeFile` stand for them.
 */
module Lesson06Store {
  import opened Wrappers
  import opened DocumentModel
  import opened StoreErrors
  import opened Lesson07Collection

  /** What gob writes for one collection: its configuration and its documents. */
  datatype CollectionSnapshot = CollectionSnapshot(config: Option<CollectionConfig>, items: map<string, Document>)

  type Snapshot = map<string, CollectionSnapshot>

  /** The errors of the persistence functions: their argument checks, and whatever the codec or the file system report. */
  datatype PersistError =
    | StoreIsNil       // "Dump: store is nil"
    | EmptyData        // "NewStoreFromDump: empty data"
    | EmptyFilename    // "NewStoreFromFile: filename is empty", "DumpToFile: filename is empty"
    | Codec(msg: string)
    | Io(msg: string)

  class Store {
    var Collections: map<string, Collection>

    /** NewStore: an empty, non-nil collections map. */
    constructor ()
      ensures Collections == map[]
    {
      Collections := map[];
    }

    /**
     * CreateCollection: a nil configuration and an existing name are rejected without any change
     * (the existing collection is kept); otherwise a new collection with that configuration and no
     * documents is stored under the name and returned, and no other name changes.
     */
    method CreateCollection(name: string, cfg: Option<CollectionConfig>) returns (c: Collection?, err: Option<StoreError>)
      modifies this
      ensures cfg.None? ==> c == null && err == Some(ErrConfigNotFound) && Collections == old(Collections)
      ensures cfg.Some? && name in old(Collections) ==>
        c == null && err == Some(ErrCollectionAlreadyExist) && Collections == old(Collections)
      ensures cfg.Some? && name !in old(Collections) ==>
        && err.None? && c != null && fresh(c)
        && c.Config == cfg && c.Items == map[]
        && Collections == old(Collections)[name := c]
    {
      if cfg.None? {
        return null, Some(ErrConfigNotFound);
      }
      if name in Collections {
        return null, Some(ErrCollectionAlreadyExist);
      }
      c := new Collection(cfg, map[]);
      Collections := Collections[name := c];
      err := None;
    }

    /** GetCollection: the stored collection, or ErrCollectionNotFound. */
    method GetCollection(name: string) returns (c: Collection?, err: Option<StoreError>)
      ensures name in Collections ==> c == Collections[name] && err.None?
      ensures name !in Collections ==> c == null && err == Some(ErrCollectionNotFound)
    {
      if name !in Collections {
        return null, Some(ErrCollectionNotFound);
      }
      return Collections[name], None;
    }

    /** DeleteCollection: ErrCollectionNotFound and no change for an absent name; otherwise only that name is removed. */
    method DeleteCollection(name: string) returns (err: Option<StoreError>)
      modifies this
      ensures err == Some(ErrCollectionNotFound) <==> name !in old(Collections)
      ensures err.None? <==> name in old(Collections)
      ensures Collections == old(Collections) - {name}
    {
      if name !in Collections {
        return Some(ErrCollectionNotFound);
      }
      Collections := Collections - {name};
      err := None;
    }

    /** The data gob encodes: each collection's configuration and documents. */
    function Contents(): Snapshot
      reads this, Collections.Values
    {
      map name | name in Collections :: CollectionSnapshot(Collections[name].Config, Collections[name].Items)
    }
  }

  /** Dump: a nil store is rejected; otherwise the result is the encoder's. */
  method Dump(s: Store?, encode: Snapshot -> Result<seq<bv8>, string>) returns (r: Result<seq<bv8>, PersistError>)
    ensures s == null ==> r == Err(StoreIsNil)
    ensures s != null ==> r == match encode(s.Contents()) { case Ok(data) => Ok(data) case Err(m) => Err(Codec(m)) }
  {
    if s == null {
      return Err(StoreIsNil);
    }
    match encode(s.Contents()) {
      case Ok(data) => r := Ok(data);
      case Err(m) => r := Err(Codec(m));
    }
  }

  /**
   * NewStoreFromDump: empty data is rejected; otherwise a decoding error is passed on, and a decoded
   * snapshot becomes a new store whose collections are new objects holding exactly the snapshot.
   */
  method NewStoreFromDump(dump: seq<bv8>, decode: seq<bv8> -> Result<Snapshot, string>) returns (s: Store?, err: Option<PersistError>)
    ensures |dump| == 0 ==> s == null && err == Some(EmptyData)
    ensures |dump| > 0 && decode(dump).Err? ==> s == null && err == Some(Codec(decode(dump).error))
    ensures |dump| > 0 && decode(dump).Ok? ==>
      && err.None? && s != null && fresh(s)
      && (forall name :: name in s.Collections ==> fresh(s.Collections[name]))
      && s.Contents() == decode(dump).value
  {
    if |dump| == 0 {
      return null, Some(EmptyData);
    }
    match decode(dump) {
      case Err(m) =>
        return null, Some(Codec(m));
      case Ok(snap) =>
        var built: map<string, Collection> := map[];
        var rest := snap.Keys;
        while rest != {}
          invariant rest <= snap.Keys && built.Keys == snap.Keys - rest
          invariant forall name :: name in built ==>
            fresh(built[name]) && built[name].Config == snap[name].config && built[name].Items == snap[name].items
          decreases rest
        {
          var name :| name in rest;
          var c := new Collection(snap[name].config, snap[name].items);
          built := built[name := c];
          rest := rest - {name};
        }
        s := new Store();
        s.Collections := built;
        err := None;
    }
  }

  /** NewStoreFromFile: an empty name is rejected; a read error is passed on; the data then goes to NewStoreFromDump. */
  method NewStoreFromFile(filename: string, readFile: string -> Result<seq<bv8>, string>, decode: seq<bv8> -> Result<Snapshot, string>)
    returns (s: Store?, err: Option<PersistError>)
    ensures filename == [] ==> s == null && err == Some(EmptyFilename)
    ensures filename != [] && readFile(filename).Err? ==> s == null && err == Some(Io(readFile(filename).error))
    ensures filename != [] && readFile(filename).Ok? ==>
      var dump := readFile(filename).value;
      && (|dump| == 0 ==> s == null && err == Some(EmptyData))
      && (|dump| > 0 && decode(dump).Err? ==> s == null && err == Some(Codec(decode(dump).error)))
      && (|dump| > 0 && decode(dump).Ok? ==> err.None? && s != null && fresh(s) && s.Contents() == decode(dump).value)
  {
    if filename == [] {
      return null, Some(EmptyFilename);
    }
    match readFile(filename) {
      case Err(m) =>
        return null, Some(Io(m));
      case Ok(data) =>
        s, err := NewStoreFromDump(data, decode);
    }
  }

  /**
   * DumpToFile: an empty name is rejected before the store is looked at; then Dump's error is passed
   * on; then the bytes go to the atomic write (temporary file, sync, rename), whose error is passed on.
   */
  method DumpToFile(s: Store?, filename: string, encode: Snapshot -> Result<seq<bv8>, string>,
                    writeFile: (string, seq<bv8>) -> Option<string>) returns (err: Option<PersistError>)
    ensures filename == [] ==> err == Some(EmptyFilename)
    ensures filename != [] && s == null ==> err == Some(StoreIsNil)
    ensures filename != [] && s != null && encode(s.Contents()).Err? ==> err == Some(Codec(encode(s.Contents()).error))
    ensures filename != [] && s != null && encode(s.Contents()).Ok? ==>
      err == match writeFile(filename, encode(s.Contents()).value) { case None => None case Some(m) => Some(Io(m)) }
  {
    if filename == [] {
      return Some(EmptyFilename);
    }
    var data := Dump(s, encode);
    if data.Err? {
      return Some(data.error);
    }
    match writeFile(filename, data.value) {
      case None => err := None;
      case Some(m) => err := Some(Io(m));
    }
  }

  // ---------------------------------------------------------------------------------------------
  // Sequences of calls.

  /** After DeleteCollection of a present name, GetCollection of that name fails and the other names are kept. */
  method DeleteThenGet(name: string, other: string, cfg: CollectionConfig) returns (err: Option<StoreError>, kept: bool)
    requires name != other
    ensures err == Some(ErrCollectionNotFound) && kept
  {
    var s := new Store();
    var c1, e1 := s.CreateCollection(name, Some(cfg));
    var c2, e2 := s.CreateCollection(other, Some(cfg));
    var d := s.DeleteCollection(name);
    var c;
    c, err := s.GetCollection(name);
    var c3, e3 := s.GetCollection(other);
    kept := c3 == c2 && c2 != null;
  }

  /** A collection returned by CreateCollection is the one GetCollection finds, and accepts a document keyed by its primary key. */
  method CreateGetPut(name: string, pk: string, key: string, doc: Document) returns (same: bool, stored: map<string, Document>)
    requires HasStringField(doc, pk, key)
    ensures same && stored == map[key := doc]
  {
    var s := new Store();
    var c, e := s.CreateCollection(name, Some(CollectionConfig(pk)));
    var g, e' := s.GetCollection(name);
    same := c == g && c != null;
    var r := c.Put(doc);
    stored := c.Items;
  }
}
