/**
 * The users service of lesson_05/users/user.go: users stored as marshalled documents in a
 * collection keyed by "ID". The collection is lesson_05's; the marshal engine is the one modelled
 * in modules Marshal and Unmarshal (lesson_05's document.go is not part of this model; its tests
 * exercise the same functions as lesson_07's). The service itself holds only the collection; the
 * ghost map `users` is the set of users that collection represents.
 */
module Lesson05Users {
  import opened Wrappers
  import opened GoValues
  import opened DocumentModel
  import opened StoreErrors
  import opened Lesson05Collection
  import Lesson05Store
  import M = Marshal
  import U = Unmarshal
  import RT = RoundTrip

  datatype User = User(ID: string, Name: string)

  datatype UserError =
    | ErrUserNotFound                        // "user not found"
    | ErrUserAlreadyExist                    // "user already exist"
    | Store(storeError: StoreError)         // from CreateCollection
    | Marshalling(marshalError: M.MarshalError)
    | Unmarshalling(unmarshalError: U.UnmarshalError)

  /** The Go type `User`: two exported string fields. */
  const UserType: GoType := TStruct([FieldDecl("ID", true, TString), FieldDecl("Name", true, TString)])

  /** A `User` as a Go value. */
  function UserValue(u: User): (v: GoValue)
    ensures TypeOf(v) == UserType && WellTyped(v) && RT.RoundTrippable(v)
  {
    var ms := [Member("ID", true, VString(u.ID)), Member("Name", true, VString(u.Name))];
    assert DistinctNames(ms) by {
      assert ms[0].name != ms[1].name by { assert |ms[0].name| != |ms[1].name|; }
    }
    assert forall k :: 0 <= k < |ms| ==> ms[k].exported && RT.RoundTrippable(ms[k].value) && WellTyped(ms[k].value);
    var fs := MemberDecls(ms);
    assert fs == [fs[0], fs[1]];
    VStruct(ms)
  }

  /** Every Go value of type `User` is some user's value. */
  function UserOf(v: GoValue): (u: User)
    requires TypeOf(v) == UserType
    ensures UserValue(u) == v
  {
    assert |MemberDecls(v.members)| == 2;
    User(v.members[0].value.s, v.members[1].value.s)
  }

  lemma UserOfUserValue(u: User)
    ensures UserOf(UserValue(u)) == u
  {
  }

  /** The document CreateUser stores for a user. */
  function UserDocument(u: User): (d: Document)
    ensures HasStringField(d, "ID", u.ID)
  {
    Document(map["ID" := DocumentField(TypeString, Value(VString(u.ID))),
                 "Name" := DocumentField(TypeString, Value(VString(u.Name)))])
  }

  /** Marshalling `&newUser` gives exactly UserDocument. */
  lemma MarshalUser(u: User)
    ensures M.MarshalDocument(Some(VPtr(UserValue(u)))) == Ok(UserDocument(u))
  {
    var ms := UserValue(u).members;
    M.MarshalDocumentFields(VPtr(UserValue(u)), ms);
    assert M.ExportedNames(ms) == {"ID", "Name"} by {
      assert ms[0].name == "ID" && ms[1].name == "Name";
    }
    assert M.MarshalDocument(Some(VPtr(UserValue(u)))).value.fields == UserDocument(u).fields;
  }

  /** Unmarshalling a user's document into a zero User gives that user back. */
  lemma UnmarshalUser(u: User)
    ensures U.Unmarshalled(Some(UserDocument(u)), Some(VPtr(Zero(UserType)))) == U.Written(Some(VPtr(UserValue(u))), None)
  {
    var x, z := UserValue(u), Zero(UserType);
    ZeroWellTyped(UserType);
    assert WellTyped(z) && TypeOf(z) == TypeOf(x);
    RT.RoundTripDocument(x, z);
    MarshalUser(u);
  }

  /** Unmarshals a stored user document into a zero User; for such a document no error is possible. */
  method DecodeUser(doc: Document, ghost u: User) returns (user: User)
    requires doc == UserDocument(u)
    ensures user == u
  {
    UnmarshalUser(u);
    var out, e := U.UnmarshalDocument(Some(doc), Some(VPtr(Zero(UserType))));
    if e.Some? {
      assert false;
    }
    UserOfUserValue(u);
    user := UserOf(out.value.target);
  }

  /** The loop of ListUsers: each listed document unmarshalled into a zero User, in order. */
  method DecodeUsers(docs: seq<Document>, ghost listed: seq<User>) returns (us: seq<User>)
    requires |docs| == |listed| && forall i :: 0 <= i < |docs| ==> docs[i] == UserDocument(listed[i])
    ensures us == listed
  {
    us := [];
    var i := 0;
    while i < |docs|
      invariant i <= |docs| && us == listed[..i]
    {
      var user := DecodeUser(docs[i], listed[i]);
      us := us + [user];
      i := i + 1;
    }
  }

  class Service {
    var coll: Collection
    ghost var users: map<string, User>

    /** The collection is keyed by "ID" and holds exactly the documents of `users`, each under its own ID. */
    ghost predicate Valid()
      reads this, coll
    {
      && coll.Config == Some(CollectionConfig("ID"))
      && coll.Items.Keys == users.Keys
      && forall id :: id in users ==> coll.Items[id] == UserDocument(users[id]) && users[id].ID == id
    }

    constructor (c: Collection)
      requires c.Config == Some(CollectionConfig("ID")) && c.Items == map[]
      ensures coll == c && users == map[] && Valid()
    {
      coll := c;
      users := map[];
    }

    /** CreateUser: an existing id is rejected and nothing changes; a fresh one is marshalled and stored under its id. */
    method CreateUser(id: string, name: string) returns (u: Option<User>, err: Option<UserError>)
      requires Valid()
      modifies this, coll
      ensures Valid() && coll == old(coll)
      ensures id in old(users) ==>
        u.None? && err == Some(ErrUserAlreadyExist) && users == old(users) && coll.Items == old(coll.Items)
      ensures id !in old(users) ==>
        && u == Some(User(id, name)) && err.None?
        && users == old(users)[id := User(id, name)]
        && coll.Items == old(coll.Items)[id := UserDocument(User(id, name))]
    {
      var _, exist := coll.Get(id);
      if exist {
        return None, Some(ErrUserAlreadyExist);
      }
      var newUser := User(id, name);
      MarshalUser(newUser);
      var newUserDocument := M.MarshalDocument(Some(VPtr(UserValue(newUser))));
      if newUserDocument.Err? {
        assert false;
      }
      PrimaryKeyOfStringField("ID", newUserDocument.value, id);
      var _ := coll.Put(newUserDocument.value);
      users := users[id := newUser];
      return Some(newUser), None;
    }

    /** GetUser: ErrUserNotFound for an absent id; otherwise the stored user, unmarshalled into a zero User. */
    method GetUser(userID: string) returns (u: Option<User>, err: Option<UserError>)
      requires Valid()
      ensures userID !in users ==> u.None? && err == Some(ErrUserNotFound)
      ensures userID in users ==> u == Some(users[userID]) && err.None?
    {
      var userDoc, found := coll.Get(userID);
      if !found {
        return None, Some(ErrUserNotFound);
      }
      var user := DecodeUser(userDoc.value, users[userID]);
      return Some(user), None;
    }

    /** DeleteUser: ErrUserNotFound for an absent id; otherwise that user, and only that one, is removed. */
    method DeleteUser(userID: string) returns (err: Option<UserError>)
      requires Valid()
      modifies this, coll
      ensures Valid() && coll == old(coll)
      ensures err == Some(ErrUserNotFound) <==> userID !in old(users)
      ensures err.None? <==> userID in old(users)
      ensures users == old(users) - {userID}
    {
      var deleted := coll.Delete(userID);
      users := users - {userID};
      if !deleted {
        return Some(ErrUserNotFound);
      }
      err := None;
    }

    /** The collection's listing, read through Valid: the users' keys, each with its user's document. */
    lemma ListedDocuments(docs: seq<Document>, keys: seq<string>) returns (listed: seq<User>)
      requires Valid() && Enumerates(keys, coll.Items.Keys) && |docs| == |keys| == |coll.Items|
      requires forall i :: 0 <= i < |docs| ==> docs[i] == coll.Items[keys[i]]
      ensures Enumerates(keys, users.Keys) && |listed| == |keys| == |users|
      ensures forall i :: 0 <= i < |keys| ==> keys[i] in users && listed[i] == users[keys[i]] && docs[i] == UserDocument(listed[i])
    {
      assert |coll.Items| == |coll.Items.Keys| == |users.Keys| == |users|;
      var m := users;
      listed := seq(|keys|, i => if 0 <= i < |keys| && keys[i] in m then m[keys[i]] else User("", ""));
    }

    /** ListUsers: one user per stored document, in the order the collection lists them. */
    method ListUsers() returns (us: seq<User>, err: Option<UserError>, ghost keys: seq<string>)
      requires Valid()
      ensures err.None? && Enumerates(keys, users.Keys) && |us| == |keys| == |users|
      ensures forall i :: 0 <= i < |us| ==> us[i] == users[keys[i]]
    {
      var userDocuments;
      userDocuments, keys := coll.List();
      ghost var listed := ListedDocuments(userDocuments, keys);
      us := DecodeUsers(userDocuments, listed);
      err := None;
    }
  }

  /** New: a service over a new, empty collection "users" keyed by "ID". */
  method New() returns (s: Service?, err: Option<UserError>)
    ensures err.None? && s != null && fresh(s) && fresh(s.coll) && s.Valid() && s.users == map[]
  {
    var store := new Lesson05Store.Store();
    var userCollection, e := store.CreateCollection("users", Some(CollectionConfig("ID")));
    if e.Some? {
      assert false;
    }
    s := new Service(userCollection);
    err := None;
  }

  /** After CreateUser(id, name), GetUser(id) returns User{id, name}. */
  method CreateThenGet(id: string, name: string) returns (u: Option<User>, err: Option<UserError>)
    ensures u == Some(User(id, name)) && err.None?
  {
    var s, _ := New();
    var created, e := s.CreateUser(id, name);
    u, err := s.GetUser(id);
  }

  /** Creating an id twice fails the second time; after DeleteUser(id), GetUser(id) fails with ErrUserNotFound. */
  method CreateTwiceDeleteThenGet(id: string, name: string) returns (again: Option<UserError>, deleted: Option<UserError>, err: Option<UserError>)
    ensures again == Some(ErrUserAlreadyExist) && deleted.None? && err == Some(ErrUserNotFound)
  {
    var s, _ := New();
    var u1, e1 := s.CreateUser(id, name);
    var u2;
    u2, again := s.CreateUser(id, name);
    deleted := s.DeleteUser(id);
    var u;
    u, err := s.GetUser(id);
  }
}
