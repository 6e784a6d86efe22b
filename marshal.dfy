/**
 * MarshalDocument and marshalValue (lesson_07/internal/documentstore/document.go:28-133): a depth-first
 * walk of a Go value that builds a Document. Both are structural recursions; the two loops of the
 * source (over struct members, and over slice or array elements) are the tail recursions
 * MarshalMembers and MarshalItems, whose accumulators are the map and the slice the loops fill.
 */
module Marshal {
  import opened Wrappers
  import opened GoValues
  import opened DocumentModel

  datatype MarshalError =
    | InputIsNil                                // "MarshalDocument: input is nil"
    | InputPointerIsNil                         // "MarshalDocument: input pointer is nil"
    | InputNotStruct(kind: Kind)                // "MarshalDocument: expected struct or *struct, got <kind>"
    | InField(name: string, cause: ValueError)  // "MarshalDocument: field <name>: <cause>"

  datatype ValueError =
    | UnsupportedKind(kind: Kind)               // "unsupported kind <kind>"
    | InElement(index: nat, cause: ValueError)  // "array element <index>: <cause>"
    | Nested(inner: MarshalError)               // a nested struct's error, passed up unchanged

  /** MarshalDocument: the input must be a struct or a non-nil pointer to one (one level only). */
  function MarshalDocument(input: Option<GoValue>): Result<Document, MarshalError>
  {
    match input
    case None => Err(InputIsNil)
    case Some(VNilPtr(_)) => Err(InputPointerIsNil)
    case Some(VPtr(t)) => MarshalStruct(t)
    case Some(v) => MarshalStruct(v)
  }

  /** The part of MarshalDocument after the pointer has been followed. */
  function MarshalStruct(v: GoValue): Result<Document, MarshalError>
  {
    if !v.VStruct? then Err(InputNotStruct(KindOf(v)))
    else
      match MarshalMembers(v.members, 0, map[])
      case Ok(fields) => Ok(Document(fields))
      case Err(e) => Err(e)
  }

  /** The loop over struct members from index `i`; `acc` is `doc.Fields` so far. Unexported members are skipped. */
  function MarshalMembers(ms: seq<Member>, i: nat, acc: map<string, DocumentField>)
    : Result<map<string, DocumentField>, MarshalError>
    decreases ms, |ms| - i
  {
    if i >= |ms| then Ok(acc)
    else if !ms[i].exported then MarshalMembers(ms, i + 1, acc)
    else
      match MarshalValue(ms[i].value)
      case Err(e) => Err(InField(ms[i].name, e))
      case Ok(df) => MarshalMembers(ms, i + 1, acc[ms[i].name := df])
  }

  /**
   * marshalValue. Pointers are followed (a nil one becomes an Object holding a typed nil *Document);
   * a nested struct goes through MarshalDocument, whose input guards it always passes, so it
   * goes straight to the member loop.
   */
  function MarshalValue(v: GoValue): Result<DocumentField, ValueError>
    decreases v, 2
  {
    match v
    case VPtr(t) => MarshalValue(t)
    case VNilPtr(_) => Ok(DocumentField(TypeObject, NilDocument))
    case VString(s) => Ok(DocumentField(TypeString, Value(VString(s))))
    case VBool(b) => Ok(DocumentField(TypeBool, Value(VBool(b))))
    case VNumber(n) => Ok(DocumentField(TypeNumber, Value(VNumber(n))))
    case VSlice(_, items) => MarshalArray(items)
    case VArray(_, items) => MarshalArray(items)
    case VStruct(ms) =>
      (match MarshalMembers(ms, 0, map[])
       case Ok(fields) => Ok(DocumentField(TypeObject, Doc(Document(fields))))
       case Err(e) => Err(Nested(e)))
    case VOther(k) => Err(UnsupportedKind(KindOther(k)))
  }

  function MarshalArray(items: seq<GoValue>): Result<DocumentField, ValueError>
    decreases items, 1
  {
    match MarshalItems(items, 0, [])
    case Ok(fs) => Ok(DocumentField(TypeArray, FieldList(fs)))
    case Err(e) => Err(e)
  }

  /** The loop over slice or array elements from index `i`; `acc` is `items` so far. */
  function MarshalItems(items: seq<GoValue>, i: nat, acc: seq<DocumentField>): (r: Result<seq<DocumentField>, ValueError>)
    requires i <= |items|
    ensures r.Ok? ==> |r.value| == |acc| + |items| - i && r.value[..|acc|] == acc
    decreases items, 0, |items| - i
  {
    if i == |items| then Ok(acc)
    else
      match MarshalValue(items[i])
      case Err(e) => Err(InElement(i, e))
      case Ok(df) => MarshalItems(items, i + 1, acc + [df])
  }

  // ---------------------------------------------------------------------------------------------
  // An independent description of the values Marshal accepts.

  /** No member, element or pointer target reachable through exported members has an unsupported kind. */
  ghost predicate Marshallable(v: GoValue)
  {
    match v
    case VPtr(t) => Marshallable(t)
    case VSlice(_, items) => forall i :: 0 <= i < |items| ==> Marshallable(items[i])
    case VArray(_, items) => forall i :: 0 <= i < |items| ==> Marshallable(items[i])
    case VStruct(ms) => forall i :: 0 <= i < |ms| && ms[i].exported ==> Marshallable(ms[i].value)
    case VOther(_) => false
    case _ => true
  }

  /** The value marshalValue tags: `v` with every non-nil pointer followed. */
  function Deref(v: GoValue): GoValue
  {
    if v.VPtr? then Deref(v.target) else v
  }

  /** The names of the exported members: the keys of a marshalled struct. */
  function ExportedNames(ms: seq<Member>): set<string>
  {
    set j | 0 <= j < |ms| && ms[j].exported :: ms[j].name
  }

  /** Index `j` is the first exported member whose value does not marshal. */
  ghost predicate FirstFailingMember(ms: seq<Member>, from: nat, j: nat)
  {
    && from <= j < |ms| && ms[j].exported && MarshalValue(ms[j].value).Err?
    && forall k :: from <= k < j && ms[k].exported ==> MarshalValue(ms[k].value).Ok?
  }

  /** Index `j` is the first element that does not marshal. */
  ghost predicate FirstFailingItem(items: seq<GoValue>, from: nat, j: nat)
  {
    && from <= j < |items| && MarshalValue(items[j]).Err?
    && forall k :: from <= k < j ==> MarshalValue(items[k]).Ok?
  }

  // ---------------------------------------------------------------------------------------------
  // The element loop.

  /** The element loop succeeds iff every remaining element marshals, and then appends their fields in order. */
  lemma {:induction false} MarshalItemsSucceeds(items: seq<GoValue>, i: nat, acc: seq<DocumentField>)
    requires i <= |items|
    ensures MarshalItems(items, i, acc).Ok? <==> forall j :: i <= j < |items| ==> MarshalValue(items[j]).Ok?
    ensures MarshalItems(items, i, acc).Ok? ==>
      forall j :: i <= j < |items| ==> MarshalItems(items, i, acc).value[|acc| + j - i] == MarshalValue(items[j]).value
    decreases |items| - i
  {
    if i < |items| && MarshalValue(items[i]).Ok? {
      var df := MarshalValue(items[i]).value;
      MarshalItemsSucceeds(items, i + 1, acc + [df]);
      var r := MarshalItems(items, i + 1, acc + [df]);
      if r.Ok? {
        assert r.value[..|acc| + 1] == acc + [df];
        assert r.value[|acc|] == (acc + [df])[|acc|];
      }
    }
  }

  /** The element loop fails at the first failing element, and says which one. */
  lemma {:induction false} MarshalItemsFails(items: seq<GoValue>, i: nat, acc: seq<DocumentField>) returns (j: nat)
    requires i <= |items| && MarshalItems(items, i, acc).Err?
    ensures FirstFailingItem(items, i, j)
    ensures MarshalItems(items, i, acc).error == InElement(j, MarshalValue(items[j]).error)
    decreases |items| - i
  {
    if MarshalValue(items[i]).Err? {
      j := i;
    } else {
      var df := MarshalValue(items[i]).value;
      j := MarshalItemsFails(items, i + 1, acc + [df]);
    }
  }

  /** The Array field of a slice or array's elements: one marshalled field per element, or the first failure. */
  lemma MarshalArrayItems(items: seq<GoValue>)
    ensures MarshalArray(items).Ok? <==> forall j :: 0 <= j < |items| ==> MarshalValue(items[j]).Ok?
    ensures MarshalArray(items).Ok? ==>
      && MarshalArray(items).value.typ == TypeArray
      && MarshalArray(items).value.value.FieldList?
      && |MarshalArray(items).value.value.items| == |items|
      && forall j :: 0 <= j < |items| ==> MarshalArray(items).value.value.items[j] == MarshalValue(items[j]).value
    ensures MarshalArray(items).Err? ==>
      exists j: nat :: FirstFailingItem(items, 0, j) && MarshalArray(items).error == InElement(j, MarshalValue(items[j]).error)
  {
    var r := MarshalItems(items, 0, []);
    ItemsSucceedFromStart(items);
    if r.Ok? {
      assert MarshalArray(items) == Ok(DocumentField(TypeArray, FieldList(r.value)));
    } else {
      var j := MarshalItemsFails(items, 0, []);
      assert MarshalArray(items) == Err(r.error);
    }
  }

  /** The element loop started at the beginning with nothing accumulated. */
  lemma ItemsSucceedFromStart(items: seq<GoValue>)
    ensures MarshalItems(items, 0, []).Ok? <==> forall j :: 0 <= j < |items| ==> MarshalValue(items[j]).Ok?
    ensures MarshalItems(items, 0, []).Ok? ==>
      |MarshalItems(items, 0, []).value| == |items| &&
      forall j :: 0 <= j < |items| ==> MarshalItems(items, 0, []).value[j] == MarshalValue(items[j]).value
  {
    MarshalItemsSucceeds(items, 0, []);
  }

  /**
   * A slice or array becomes an Array field with one element per source element, in order, each
   * the marshalled source element; otherwise the first failing element index is reported.
   */
  lemma MarshalArrayElements(v: GoValue)
    requires v.VSlice? || v.VArray?
    ensures MarshalValue(v).Ok? <==> forall j :: 0 <= j < |v.items| ==> MarshalValue(v.items[j]).Ok?
    ensures MarshalValue(v).Ok? ==>
      && MarshalValue(v).value.typ == TypeArray
      && MarshalValue(v).value.value.FieldList?
      && |MarshalValue(v).value.value.items| == |v.items|
      && forall j :: 0 <= j < |v.items| ==> MarshalValue(v).value.value.items[j] == MarshalValue(v.items[j]).value
    ensures MarshalValue(v).Err? ==>
      exists j: nat :: FirstFailingItem(v.items, 0, j) && MarshalValue(v).error == InElement(j, MarshalValue(v.items[j]).error)
  {
    assert MarshalValue(v) == MarshalArray(v.items);
    MarshalArrayItems(v.items);
  }

  // ---------------------------------------------------------------------------------------------
  // The member loop.

  lemma {:induction false} MarshalMembersSucceeds(ms: seq<Member>, i: nat, acc: map<string, DocumentField>)
    requires i <= |ms|
    ensures MarshalMembers(ms, i, acc).Ok? <==>
      forall j :: i <= j < |ms| && ms[j].exported ==> MarshalValue(ms[j].value).Ok?
    decreases |ms| - i
  {
    if i < |ms| {
      if !ms[i].exported {
        MarshalMembersSucceeds(ms, i + 1, acc);
      } else if MarshalValue(ms[i].value).Ok? {
        MarshalMembersSucceeds(ms, i + 1, acc[ms[i].name := MarshalValue(ms[i].value).value]);
      }
    }
  }

  lemma {:induction false} MarshalMembersFails(ms: seq<Member>, i: nat, acc: map<string, DocumentField>)
    requires i <= |ms|
    ensures MarshalMembers(ms, i, acc).Err? ==>
      exists j: nat :: FirstFailingMember(ms, i, j) &&
        MarshalMembers(ms, i, acc).error == InField(ms[j].name, MarshalValue(ms[j].value).error)
    decreases |ms| - i
  {
    if i < |ms| {
      if !ms[i].exported {
        MarshalMembersFails(ms, i + 1, acc);
        if MarshalMembers(ms, i, acc).Err? {
          var j: nat :| FirstFailingMember(ms, i + 1, j) &&
            MarshalMembers(ms, i + 1, acc).error == InField(ms[j].name, MarshalValue(ms[j].value).error);
          assert FirstFailingMember(ms, i, j);
        }
      } else if MarshalValue(ms[i].value).Err? {
        assert FirstFailingMember(ms, i, i);
      } else {
        var acc' := acc[ms[i].name := MarshalValue(ms[i].value).value];
        MarshalMembersFails(ms, i + 1, acc');
        if MarshalMembers(ms, i, acc).Err? {
          var j: nat :| FirstFailingMember(ms, i + 1, j) &&
            MarshalMembers(ms, i + 1, acc').error == InField(ms[j].name, MarshalValue(ms[j].value).error);
          assert FirstFailingMember(ms, i, j);
        }
      }
    }
  }

  /** The exported names from `i` on are member `i`'s (if exported) and, apart from it, those from `i + 1` on. */
  lemma ExportedNamesStep(ms: seq<Member>, i: nat)
    requires i < |ms| && DistinctNames(ms)
    ensures (set j | i <= j < |ms| && ms[j].exported :: ms[j].name)
            == (set j | i + 1 <= j < |ms| && ms[j].exported :: ms[j].name) + (if ms[i].exported then {ms[i].name} else {})
    ensures ms[i].exported ==> ms[i].name !in (set j | i + 1 <= j < |ms| && ms[j].exported :: ms[j].name)
  {
  }

  /**
   * With distinct member names, the member loop adds exactly one field per exported member from `i`
   * on, keyed by its name and holding its marshalled value; what `acc` held under other names stays.
   */
  lemma {:induction false} MarshalMembersFields(ms: seq<Member>, i: nat, acc: map<string, DocumentField>)
    requires i <= |ms| && DistinctNames(ms)
    requires MarshalMembers(ms, i, acc).Ok?
    ensures MarshalMembers(ms, i, acc).value.Keys == acc.Keys + (set j | i <= j < |ms| && ms[j].exported :: ms[j].name)
    ensures forall j :: i <= j < |ms| && ms[j].exported ==>
      MarshalValue(ms[j].value).Ok? && MarshalMembers(ms, i, acc).value[ms[j].name] == MarshalValue(ms[j].value).value
    ensures forall k :: k in acc && k !in (set j | i <= j < |ms| && ms[j].exported :: ms[j].name) ==>
      MarshalMembers(ms, i, acc).value[k] == acc[k]
    decreases |ms| - i
  {
    if i < |ms| {
      var acc' := if ms[i].exported then acc[ms[i].name := MarshalValue(ms[i].value).value] else acc;
      MarshalMembersFields(ms, i + 1, acc');
      ExportedNamesStep(ms, i);
    }
  }

  // ---------------------------------------------------------------------------------------------
  // The properties of marshalValue and MarshalDocument.

  /** marshalValue succeeds exactly on the marshallable values. */
  lemma {:induction false} MarshalValueSucceedsIff(v: GoValue)
    ensures MarshalValue(v).Ok? <==> Marshallable(v)
    decreases v
  {
    match v {
      case VPtr(t) =>
        MarshalValueSucceedsIff(t);
      case VSlice(_, items) =>
        forall j | 0 <= j < |items| { MarshalValueSucceedsIff(items[j]); }
        MarshalItemsSucceeds(items, 0, []);
      case VArray(_, items) =>
        forall j | 0 <= j < |items| { MarshalValueSucceedsIff(items[j]); }
        MarshalItemsSucceeds(items, 0, []);
      case VStruct(ms) =>
        forall j | 0 <= j < |ms| && ms[j].exported { MarshalValueSucceedsIff(ms[j].value); }
        MarshalMembersSucceeds(ms, 0, map[]);
      case _ =>
    }
  }

  /** The tag of a marshalled value is the tag of its kind (after following pointers), and agrees with the payload. */
  lemma {:induction false} MarshalValueTagged(v: GoValue)
    requires MarshalValue(v).Ok?
    ensures Some(MarshalValue(v).value.typ) == TagOfKind(KindOf(Deref(v)))
    ensures WellTagged(MarshalValue(v).value)
    decreases v
  {
    match v {
      case VPtr(t) =>
        MarshalValueTagged(t);
      case VSlice(_, items) =>
        MarshalArrayElements(v);
        forall j | 0 <= j < |items| ensures WellTagged(MarshalValue(v).value.value.items[j]) {
          MarshalValueTagged(items[j]);
        }
      case VArray(_, items) =>
        MarshalArrayElements(v);
        forall j | 0 <= j < |items| ensures WellTagged(MarshalValue(v).value.value.items[j]) {
          MarshalValueTagged(items[j]);
        }
      case VStruct(ms) =>
        MarshalMembersSucceeds(ms, 0, map[]);
        forall j | 0 <= j < |ms| && ms[j].exported ensures WellTagged(MarshalValue(ms[j].value).value) {
          MarshalValueTagged(ms[j].value);
        }
        MarshalMembersTagged(ms, 0, map[]);
      case _ =>
    }
  }

  lemma {:induction false} MarshalMembersTagged(ms: seq<Member>, i: nat, acc: map<string, DocumentField>)
    requires i <= |ms| && MarshalMembers(ms, i, acc).Ok?
    requires forall k :: k in acc ==> WellTagged(acc[k])
    requires forall j :: i <= j < |ms| && ms[j].exported ==>
      MarshalValue(ms[j].value).Ok? && WellTagged(MarshalValue(ms[j].value).value)
    ensures forall k :: k in MarshalMembers(ms, i, acc).value ==> WellTagged(MarshalMembers(ms, i, acc).value[k])
    decreases |ms| - i
  {
    if i < |ms| {
      if ms[i].exported {
        MarshalMembersTagged(ms, i + 1, acc[ms[i].name := MarshalValue(ms[i].value).value]);
      } else {
        MarshalMembersTagged(ms, i + 1, acc);
      }
    }
  }

  /** MarshalDocument's input guards: nil, a nil pointer, and anything but a struct after one dereference. */
  lemma MarshalDocumentGuards(input: Option<GoValue>)
    ensures MarshalDocument(input) == Err(InputIsNil) <==> input.None?
    ensures MarshalDocument(input) == Err(InputPointerIsNil) <==> input.Some? && input.value.VNilPtr?
    ensures forall k :: MarshalDocument(input) == Err(InputNotStruct(k)) <==>
      && input.Some? && !input.value.VNilPtr?
      && var v := if input.value.VPtr? then input.value.target else input.value;
         !v.VStruct? && k == KindOf(v)
  {
    if input.Some? && !input.value.VNilPtr? {
      var v := if input.value.VPtr? then input.value.target else input.value;
      if v.VStruct? {
        MarshalMembersFails(v.members, 0, map[]);
      }
    }
  }

  /**
   * A struct (or a pointer to one) marshals iff every exported member does. The document then has
   * exactly one field per exported member, under its name, holding the marshalled member; otherwise
   * the error names the first failing exported member and no document is returned.
   */
  lemma MarshalDocumentFields(input: GoValue, ms: seq<Member>)
    requires input == VStruct(ms) || input == VPtr(VStruct(ms))
    requires DistinctNames(ms)
    ensures MarshalDocument(Some(input)).Ok? <==> Marshallable(VStruct(ms))
    ensures MarshalDocument(Some(input)).Ok? ==>
      && MarshalDocument(Some(input)).value.fields.Keys == ExportedNames(ms)
      && forall j :: 0 <= j < |ms| && ms[j].exported ==>
           MarshalValue(ms[j].value).Ok? &&
           MarshalDocument(Some(input)).value.fields[ms[j].name] == MarshalValue(ms[j].value).value
    ensures MarshalDocument(Some(input)).Err? ==>
      exists j: nat :: FirstFailingMember(ms, 0, j) &&
        MarshalDocument(Some(input)).error == InField(ms[j].name, MarshalValue(ms[j].value).error)
  {
    MarshalValueSucceedsIff(VStruct(ms));
    MarshalMembersSucceeds(ms, 0, map[]);
    MarshalMembersFails(ms, 0, map[]);
    if MarshalMembers(ms, 0, map[]).Ok? {
      MarshalMembersFields(ms, 0, map[]);
    }
  }

  /** Blank `_` fields, which Go lets a struct repeat, are unexported and so are skipped by MarshalDocument. */
  lemma BlankFieldsSkipped(a: string)
    ensures var x := VStruct([Member("_", false, VNumber(0)), Member("_", false, VNumber(0)), Member("A", true, VString(a))]);
      MarshalDocument(Some(x)) == Ok(Document(map["A" := DocumentField(TypeString, Value(VString(a)))]))
  {
    var ms := [Member("_", false, VNumber(0)), Member("_", false, VNumber(0)), Member("A", true, VString(a))];
    assert ExportedNames(ms) == {"A"} by {
      assert ms[2].exported;
    }
    MarshalDocumentFields(VStruct(ms), ms);
    var fields := MarshalDocument(Some(VStruct(ms))).value.fields;
    assert fields == map["A" := DocumentField(TypeString, Value(VString(a)))];
  }

  /** Every field of a marshalled document carries the tag matching its payload. */
  lemma MarshalDocumentTagged(input: Option<GoValue>)
    requires MarshalDocument(input).Ok?
    ensures WellTaggedDocument(MarshalDocument(input).value)
  {
    var v := if input.value.VPtr? then input.value.target else input.value;
    MarshalValueTagged(v);
  }
}
