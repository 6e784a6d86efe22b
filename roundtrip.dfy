/**
 * How MarshalDocument and UnmarshalDocument (lesson_07/internal/documentstore/document.go:28-281)
 * fit together: unmarshalling what was marshalled restores the value, for the values the
 * round-trip test of lesson_05/documentstore/document_marshal_test.go:269-291 is built from;
 * and a nil pointer member, which Marshal accepts, is one value that does not come back.
 */
module RoundTrip {
  import opened Wrappers
  import opened GoValues
  import opened DocumentModel
  import M = Marshal
  import U = Unmarshal

  /**
   * Strings, bools, numbers, slices, arrays, structs whose members are all exported, and non-nil
   * pointers to such values.
   */
  ghost predicate RoundTrippable(x: GoValue)
  {
    match x
    case VString(_) => true
    case VBool(_) => true
    case VNumber(_) => true
    case VSlice(_, items) => forall k :: 0 <= k < |items| ==> RoundTrippable(items[k])
    case VArray(_, items) => forall k :: 0 <= k < |items| ==> RoundTrippable(items[k])
    case VStruct(ms) => forall k :: 0 <= k < |ms| ==> ms[k].exported && RoundTrippable(ms[k].value)
    case VPtr(t) => RoundTrippable(t)
    case _ => false
  }

  /** Unmarshalling the stored elements into `dests` restores `xs` when each element does. */
  lemma ItemsRestored(items: seq<DocumentField>, dests: seq<GoValue>, xs: seq<GoValue>)
    requires |items| == |dests| == |xs|
    requires forall k :: 0 <= k < |dests| ==> U.UnmarshalledValue(items[k], dests[k]) == U.Written(xs[k], None)
    ensures U.UnmarshalledItems(items, dests, 0) == U.Written(xs, None)
  {
    U.UnmarshalledItemsSpec(items, dests, 0);
    assert U.UnmarshalledItems(items, dests, 0).value == xs;
  }

  /** A slice comes back when each of its elements comes back into a zero element. */
  lemma SliceRestored(x: GoValue, dest: GoValue)
    requires x.VSlice? && dest.VSlice? && dest.elem == x.elem
    requires forall k :: 0 <= k < |x.items| ==>
      && M.MarshalValue(x.items[k]).Ok?
      && U.UnmarshalledValue(M.MarshalValue(x.items[k]).value, Zero(x.elem)) == U.Written(x.items[k], None)
    ensures M.MarshalValue(x).Ok?
    ensures U.UnmarshalledValue(M.MarshalValue(x).value, dest) == U.Written(x, None)
  {
    M.MarshalArrayElements(x);
    var fl := M.MarshalValue(x).value.value.items;
    ItemsRestored(fl, U.Zeros(x.elem, |fl|), x.items);
  }

  /** An array comes back when each of its elements comes back into the destination's element. */
  lemma ArrayRestored(x: GoValue, dest: GoValue)
    requires x.VArray? && dest.VArray? && dest.elem == x.elem && |dest.items| == |x.items|
    requires forall k :: 0 <= k < |x.items| ==>
      && M.MarshalValue(x.items[k]).Ok?
      && U.UnmarshalledValue(M.MarshalValue(x.items[k]).value, dest.items[k]) == U.Written(x.items[k], None)
    ensures M.MarshalValue(x).Ok?
    ensures U.UnmarshalledValue(M.MarshalValue(x).value, dest) == U.Written(x, None)
  {
    M.MarshalArrayElements(x);
    ItemsRestored(M.MarshalValue(x).value.value.items, dest.items, x.items);
  }

  /** Unmarshalling a document into members `dms` gives `ms` when each member write succeeds and gives the member of `ms`. */
  lemma MembersRestored(doc: Document, dms: seq<Member>, ms: seq<Member>)
    requires |dms| == |ms|
    requires forall k :: 0 <= k < |ms| ==> !U.MemberFails(doc, dms[k]) && U.MemberAfter(doc, dms[k]) == ms[k]
    ensures U.UnmarshalledMembers(doc, dms, 0) == U.Written(ms, None)
  {
    U.MembersSucceedIff(doc, dms, 0);
    U.MembersWrittenOnSuccess(doc, dms, 0);
    assert U.UnmarshalledMembers(doc, dms, 0).value == ms;
  }

  /** A struct with exported members comes back when each member comes back into the destination's member of the same name. */
  lemma StructRestored(x: GoValue, dest: GoValue)
    requires x.VStruct? && dest.VStruct? && DistinctNames(x.members)
    requires MemberDecls(dest.members) == MemberDecls(x.members)
    requires forall k :: 0 <= k < |x.members| ==>
      && x.members[k].exported
      && M.MarshalValue(x.members[k].value).Ok?
      && U.UnmarshalledValue(M.MarshalValue(x.members[k].value).value, dest.members[k].value) == U.Written(x.members[k].value, None)
    ensures M.MarshalValue(x).Ok?
    ensures U.UnmarshalledValue(M.MarshalValue(x).value, dest) == U.Written(x, None)
  {
    var ms, dms := x.members, dest.members;
    M.MarshalMembersSucceeds(ms, 0, map[]);
    M.MarshalMembersFields(ms, 0, map[]);
    var fields := M.MarshalMembers(ms, 0, map[]).value;
    var doc := Document(fields);
    assert M.MarshalValue(x) == Ok(DocumentField(TypeObject, Doc(doc)));
    assert |dms| == |MemberDecls(dms)| == |ms|;
    forall k | 0 <= k < |ms|
      ensures !U.MemberFails(doc, dms[k]) && U.MemberAfter(doc, dms[k]) == ms[k]
    {
      assert MemberDecls(dms)[k] == MemberDecls(ms)[k];
      assert dms[k].name == ms[k].name && dms[k].exported == ms[k].exported;
      assert fields[ms[k].name] == M.MarshalValue(ms[k].value).value;
    }
    MembersRestored(doc, dms, ms);
  }

  /**
   * Marshalling a round-trippable value and unmarshalling the field into any destination of the
   * same type succeeds and leaves exactly that value in the destination.
   */
  /** Two well-typed structs of one type pair their members up: same count, each pair of one type. */
  lemma MemberTypesMatch(x: GoValue, dest: GoValue)
    requires x.VStruct? && RoundTrippable(x) && WellTyped(x)
    requires WellTyped(dest) && TypeOf(dest) == TypeOf(x)
    ensures dest.VStruct? && |dest.members| == |x.members|
    ensures forall k :: 0 <= k < |x.members| ==>
      && RoundTrippable(x.members[k].value) && WellTyped(x.members[k].value)
      && WellTyped(dest.members[k].value) && TypeOf(dest.members[k].value) == TypeOf(x.members[k].value)
  {
    var ms, dms := x.members, dest.members;
    assert |dms| == |MemberDecls(dms)| == |ms|;
    forall k | 0 <= k < |ms|
      ensures TypeOf(dms[k].value) == TypeOf(ms[k].value)
    {
      assert MemberDecls(dms)[k] == MemberDecls(ms)[k];
    }
  }

  lemma {:induction false} RoundTripValue(x: GoValue, dest: GoValue)
    requires RoundTrippable(x) && WellTyped(x)
    requires WellTyped(dest) && TypeOf(dest) == TypeOf(x)
    ensures M.MarshalValue(x).Ok?
    ensures U.UnmarshalledValue(M.MarshalValue(x).value, dest) == U.Written(x, None)
    decreases x
  {
    match x {
      case VString(_) =>
      case VBool(_) =>
      case VNumber(_) =>
      case VPtr(t) =>
        if dest.VPtr? {
          RoundTripValue(t, dest.target);
        } else {
          ZeroWellTyped(dest.elem);
          RoundTripValue(t, Zero(dest.elem));
        }
      case VSlice(e, items) =>
        ZeroWellTyped(e);
        forall k | 0 <= k < |items|
          ensures M.MarshalValue(items[k]).Ok?
          ensures U.UnmarshalledValue(M.MarshalValue(items[k]).value, Zero(e)) == U.Written(items[k], None)
        {
          RoundTripValue(items[k], Zero(e));
        }
        SliceRestored(x, dest);
      case VArray(e, items) =>
        forall k | 0 <= k < |items|
          ensures M.MarshalValue(items[k]).Ok?
          ensures U.UnmarshalledValue(M.MarshalValue(items[k]).value, dest.items[k]) == U.Written(items[k], None)
        {
          RoundTripValue(items[k], dest.items[k]);
        }
        ArrayRestored(x, dest);
      case VStruct(ms) =>
        var dms := dest.members;
        MemberTypesMatch(x, dest);
        forall k | 0 <= k < |ms|
          ensures M.MarshalValue(ms[k].value).Ok?
          ensures U.UnmarshalledValue(M.MarshalValue(ms[k].value).value, dms[k].value) == U.Written(ms[k].value, None)
        {
          RoundTripValue(ms[k].value, dms[k].value);
        }
        StructRestored(x, dest);
    }
  }

  /**
   * The document-level round trip: marshal a struct, unmarshal the document through a pointer to a
   * struct of the same type, and the pointer's target is the original struct.
   */
  lemma RoundTripDocument(x: GoValue, dest: GoValue)
    requires x.VStruct? && RoundTrippable(x) && WellTyped(x)
    requires WellTyped(dest) && TypeOf(dest) == TypeOf(x)
    ensures M.MarshalDocument(Some(x)).Ok? && M.MarshalDocument(Some(VPtr(x))) == M.MarshalDocument(Some(x))
    ensures U.Unmarshalled(Some(M.MarshalDocument(Some(x)).value), Some(VPtr(dest))) == U.Written(Some(VPtr(x)), None)
  {
    RoundTripValue(x, dest);
  }

  /** The round-trip test's shape: unmarshalling into a freshly declared (zero) variable restores the original. */
  lemma RoundTripIntoZero(x: GoValue)
    requires x.VStruct? && RoundTrippable(x) && WellTyped(x)
    ensures M.MarshalDocument(Some(x)).Ok?
    ensures U.Unmarshalled(Some(M.MarshalDocument(Some(x)).value), Some(VPtr(Zero(TypeOf(x))))) == U.Written(Some(VPtr(x)), None)
  {
    WellTypedHasWellFormedType(x);
    ZeroWellTyped(TypeOf(x));
    RoundTripDocument(x, Zero(TypeOf(x)));
  }

  /**
   * Marshal turns a nil pointer into an Object field holding a typed nil *Document. Unmarshalling that
   * field into a nil pointer to a struct allocates the struct and then fails as UnmarshalDocument(nil, ...)
   * does: the `df.Value == nil` test of the struct case does not catch a typed nil.
   */
  lemma NilStructPointerAllocatedThenFails(fs: seq<FieldDecl>)
    ensures M.MarshalValue(VNilPtr(TStruct(fs))) == Ok(DocumentField(TypeObject, NilDocument))
    ensures U.UnmarshalledValue(DocumentField(TypeObject, NilDocument), VNilPtr(TStruct(fs)))
         == U.Written(VPtr(Zero(TStruct(fs))), Some(U.Nested(U.DocIsNil)))
  {
  }

  /** No nil pointer survives the round trip, whatever it points to: unmarshalling its field into the same nil pointer fails. */
  lemma NilPointerDoesNotRoundTrip(e: GoType)
    ensures U.UnmarshalledValue(M.MarshalValue(VNilPtr(e)).value, VNilPtr(e)).err.Some?
  {
    var df := M.MarshalValue(VNilPtr(e)).value;
    U.PointersFollowed(df, VNilPtr(e));
    var t := U.Target(VNilPtr(e));
    if t.VStruct? {
      U.UnmarshalStruct(df, t);
    } else if TagOfKind(KindOf(t)).Some? {
      U.TagChecked(df, VNilPtr(e));
    } else {
      U.UnsupportedDestinationRejected(df, VNilPtr(e));
    }
  }

  /** A struct with an exported nil pointer member marshals, but unmarshalling the document into a zero struct of its type fails. */
  lemma NilPointerMemberBreaksRoundTrip(name: string, e: GoType)
    requires WellFormedType(e)
    ensures var x := VStruct([Member(name, true, VNilPtr(e))]);
      && M.MarshalDocument(Some(x)).Ok?
      && U.Unmarshalled(Some(M.MarshalDocument(Some(x)).value), Some(VPtr(Zero(TypeOf(x))))).err.Some?
  {
    var x := VStruct([Member(name, true, VNilPtr(e))]);
    M.MarshalDocumentFields(x, x.members);
    var doc := M.MarshalDocument(Some(x)).value;
    var dms := Zero(TypeOf(x)).members;
    assert dms[0] == Member(name, true, VNilPtr(e));
    NilPointerDoesNotRoundTrip(e);
    assert U.MemberFails(doc, dms[0]);
    U.UnmarshalDocumentFields(doc, dms);
  }
}
