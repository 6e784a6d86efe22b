/**
 * UnmarshalDocument and unmarshalValue (lesson_07/internal/documentstore/document.go:135-281).
 *
 * The source writes into the destination in place, member by member and element by element, and
 * keeps earlier writes when a later one fails. The model follows the destination as a value: every
 * step takes the destination's current value and returns its value after the writes, together with
 * the error, if any (`Written`). The functions `Unmarshalled`, `UnmarshalledValue`,
 * `UnmarshalledMembers` and `UnmarshalledItems` specify the walk; the methods `UnmarshalDocument`,
 * `UnmarshalValue`, `UnmarshalMembers` and `UnmarshalItems` are the source's loops, proved to compute
 * exactly what the functions describe.
 */
module Unmarshal {
  import opened Wrappers
  import opened GoValues
  import opened DocumentModel

  datatype UnmarshalError =
    | DocIsNil                                  // "UnmarshalDocument: doc is nil"
    | OutputIsNil                               // "UnmarshalDocument: output is nil"
    | OutputNotPointer                          // "UnmarshalDocument: output must be a non-nil pointer to struct"
    | OutputNotStruct(kind: Kind)               // "UnmarshalDocument: expected pointer to struct, got <kind>"
    | InField(name: string, cause: ValueError)  // "field <name>: <cause>"

  datatype ValueError =
    | TagMismatch(expected: DocumentFieldType, got: DocumentFieldType)  // "expected string, got <tag>"
    | StoredValueMismatch(expected: DocumentFieldType)                  // "stored value is not string, got <type>"
    | InvalidNumber                                                     // "number value is invalid"
    | NotConvertible                                                    // "cannot convert <type> to <type>"
    | LengthMismatch(have: nat, need: nat)                              // "array length mismatch: have <n>, need <m>"
    | InElement(index: nat, cause: ValueError)                          // "array element <i>: <cause>"
    | Nested(inner: UnmarshalError)                                     // a nested UnmarshalDocument's error
    | UnsupportedDestination(kind: Kind)                                // "unsupported destination kind <kind>"

  /** The destination's value after the writes, and the error that stopped them, if any. */
  datatype Written<T, E> = Written(value: T, err: Option<E>)

  // ---------------------------------------------------------------------------------------------
  // The specification of the walk.

  /**
   * UnmarshalDocument(doc, output). `output` is the `any` argument; on success, or after a member
   * failed, it is the pointer to the struct with the members' new values.
   */
  function Unmarshalled(doc: Option<Document>, output: Option<GoValue>): Written<Option<GoValue>, UnmarshalError>
  {
    if doc.None? then Written(output, Some(DocIsNil))
    else if output.None? then Written(output, Some(OutputIsNil))
    else if !output.value.VPtr? then Written(output, Some(OutputNotPointer))
    else if !output.value.target.VStruct? then Written(output, Some(OutputNotStruct(KindOf(output.value.target))))
    else
      var w := UnmarshalledMembers(doc.value, output.value.target.members, 0);
      Written(Some(VPtr(VStruct(w.value))), w.err)
  }

  /**
   * The member loop of UnmarshalDocument from member `i` on: unexported members and members the
   * document lacks are skipped; the first failing member stops the loop, keeping what was written.
   */
  function UnmarshalledMembers(doc: Document, ms: seq<Member>, i: nat): (r: Written<seq<Member>, UnmarshalError>)
    requires i <= |ms|
    ensures |r.value| == |ms|
    decreases doc, 0, |ms| - i
  {
    if i == |ms| then Written(ms, None)
    else if !ms[i].exported || ms[i].name !in doc.fields then UnmarshalledMembers(doc, ms, i + 1)
    else
      var w := UnmarshalledValue(doc.fields[ms[i].name], ms[i].value);
      var ms' := ms[i := ms[i].(value := w.value)];
      if w.err.Some? then Written(ms', Some(InField(ms[i].name, w.err.value)))
      else UnmarshalledMembers(doc, ms', i + 1)
  }

  /** The element loop of the slice and array cases from element `i` on; the first failure stops it. */
  function UnmarshalledItems(items: seq<DocumentField>, dests: seq<GoValue>, i: nat): (r: Written<seq<GoValue>, ValueError>)
    requires |items| == |dests| && i <= |dests|
    ensures |r.value| == |dests|
    decreases items, 0, |dests| - i
  {
    if i == |dests| then Written(dests, None)
    else
      var w := UnmarshalledValue(items[i], dests[i]);
      var dests' := dests[i := w.value];
      if w.err.Some? then Written(dests', Some(InElement(i, w.err.value)))
      else UnmarshalledItems(items, dests', i + 1)
  }

  function Fail(dest: GoValue, e: ValueError): Written<GoValue, ValueError>
  {
    Written(dest, Some(e))
  }

  /**
   * unmarshalValue(df, dest). A nil pointer is first set to a newly allocated zero target, which it
   * keeps even when the write below fails. A slice is built aside and stored only on success; an
   * array and a struct are written in place.
   */
  function UnmarshalledValue(df: DocumentField, dest: GoValue): Written<GoValue, ValueError>
    decreases df, 1, PtrDepth(dest)
  {
    match dest
    case VPtr(t) =>
      var w := UnmarshalledValue(df, t);
      Written(VPtr(w.value), w.err)
    case VNilPtr(e) =>
      var w := UnmarshalledValue(df, Zero(e));
      Written(VPtr(w.value), w.err)
    case VString(_) =>
      if df.typ != TypeString then Fail(dest, TagMismatch(TypeString, df.typ))
      else if df.value.Value? && df.value.v.VString? then Written(df.value.v, None)
      else Fail(dest, StoredValueMismatch(TypeString))
    case VBool(_) =>
      if df.typ != TypeBool then Fail(dest, TagMismatch(TypeBool, df.typ))
      else if df.value.Value? && df.value.v.VBool? then Written(df.value.v, None)
      else Fail(dest, StoredValueMismatch(TypeBool))
    case VNumber(_) =>
      if df.typ != TypeNumber then Fail(dest, TagMismatch(TypeNumber, df.typ))
      else if df.value.Nil? then Fail(dest, InvalidNumber)
      else if df.value.Value? && df.value.v.VNumber? then Written(df.value.v, None)
      else Fail(dest, NotConvertible)
    case VSlice(e, _) =>
      if df.typ != TypeArray then Fail(dest, TagMismatch(TypeArray, df.typ))
      else if !df.value.FieldList? then Fail(dest, StoredValueMismatch(TypeArray))
      else
        var w := UnmarshalledItems(df.value.items, Zeros(e, |df.value.items|), 0);
        if w.err.Some? then Fail(dest, w.err.value) else Written(VSlice(e, w.value), None)
    case VArray(e, items) =>
      if df.typ != TypeArray then Fail(dest, TagMismatch(TypeArray, df.typ))
      else if !df.value.FieldList? then Fail(dest, StoredValueMismatch(TypeArray))
      else if |df.value.items| != |items| then Fail(dest, LengthMismatch(|df.value.items|, |items|))
      else
        var w := UnmarshalledItems(df.value.items, items, 0);
        Written(VArray(e, w.value), w.err)
    case VStruct(ms) =>
      if df.typ != TypeObject then Fail(dest, TagMismatch(TypeObject, df.typ))
      else
        (match df.value
         case Nil => Written(dest, None)
         case NilDocument => Fail(dest, Nested(DocIsNil))
         case Doc(d) =>
           var w := UnmarshalledMembers(d, ms, 0);
           Written(VStruct(w.value), if w.err.Some? then Some(Nested(w.err.value)) else None)
         case _ => Fail(dest, StoredValueMismatch(TypeObject)))
    case VOther(k) => Fail(dest, UnsupportedDestination(KindOther(k)))
  }

  /** `reflect.MakeSlice(t, n, n)`: n zero elements. */
  function Zeros(e: GoType, n: nat): (zs: seq<GoValue>)
    ensures |zs| == n && forall k :: 0 <= k < n ==> zs[k] == Zero(e)
  {
    seq(n, _ => Zero(e))
  }

  // ---------------------------------------------------------------------------------------------
  // The source's loops.

  method UnmarshalDocument(doc: Option<Document>, output: Option<GoValue>) returns (out: Option<GoValue>, err: Option<UnmarshalError>)
    ensures Written(out, err) == Unmarshalled(doc, output)
  {
    out := output;
    if doc.None? {
      return out, Some(DocIsNil);
    }
    if output.None? {
      return out, Some(OutputIsNil);
    }
    if !output.value.VPtr? {
      return out, Some(OutputNotPointer);
    }
    var v := output.value.target;
    if !v.VStruct? {
      return out, Some(OutputNotStruct(KindOf(v)));
    }
    var ms;
    ms, err := UnmarshalMembers(doc.value, v.members);
    out := Some(VPtr(VStruct(ms)));
  }

  /** The loop over the destination struct's members (document.go:154-176), writing each in turn. */
  method UnmarshalMembers(doc: Document, members: seq<Member>) returns (ms: seq<Member>, err: Option<UnmarshalError>)
    ensures Written(ms, err) == UnmarshalledMembers(doc, members, 0)
    decreases doc, 0, 0
  {
    ms := members;
    var i := 0;
    while i < |ms|
      invariant i <= |ms| == |members|
      invariant UnmarshalledMembers(doc, ms, i) == UnmarshalledMembers(doc, members, 0)
    {
      var name := ms[i].name;
      if ms[i].exported && name in doc.fields {
        var v, e := UnmarshalValue(doc.fields[name], ms[i].value);
        ms := ms[i := ms[i].(value := v)];
        if e.Some? {
          return ms, Some(InField(name, e.value));
        }
      }
      i := i + 1;
    }
    err := None;
  }

  /** The loop over the stored elements, writing element `i` of `dests` from element `i` of `items`. */
  method UnmarshalItems(items: seq<DocumentField>, dests: seq<GoValue>) returns (out: seq<GoValue>, err: Option<ValueError>)
    requires |items| == |dests|
    ensures Written(out, err) == UnmarshalledItems(items, dests, 0)
    decreases items, 0, 0
  {
    out := dests;
    var i := 0;
    while i < |out|
      invariant i <= |out| == |dests|
      invariant UnmarshalledItems(items, out, i) == UnmarshalledItems(items, dests, 0)
    {
      var v, e := UnmarshalValue(items[i], out[i]);
      out := out[i := v];
      if e.Some? {
        return out, Some(InElement(i, e.value));
      }
      i := i + 1;
    }
    err := None;
  }

  method UnmarshalValue(df: DocumentField, dest: GoValue) returns (value: GoValue, err: Option<ValueError>)
    ensures Written(value, err) == UnmarshalledValue(df, dest)
    decreases df, 1, PtrDepth(dest)
  {
    value, err := dest, None;
    match dest {
      case VPtr(t) =>
        var v;
        v, err := UnmarshalValue(df, t);
        value := VPtr(v);
      case VNilPtr(e) =>
        var v;
        v, err := UnmarshalValue(df, Zero(e));
        value := VPtr(v);
      case VString(_) =>
        if df.typ != TypeString {
          err := Some(TagMismatch(TypeString, df.typ));
        } else if !(df.value.Value? && df.value.v.VString?) {
          err := Some(StoredValueMismatch(TypeString));
        } else {
          value := df.value.v;
        }
      case VBool(_) =>
        if df.typ != TypeBool {
          err := Some(TagMismatch(TypeBool, df.typ));
        } else if !(df.value.Value? && df.value.v.VBool?) {
          err := Some(StoredValueMismatch(TypeBool));
        } else {
          value := df.value.v;
        }
      case VNumber(_) =>
        if df.typ != TypeNumber {
          err := Some(TagMismatch(TypeNumber, df.typ));
        } else if df.value.Nil? {
          err := Some(InvalidNumber);
        } else if !(df.value.Value? && df.value.v.VNumber?) {
          err := Some(NotConvertible);
        } else {
          value := df.value.v;
        }
      case VSlice(e, _) =>
        if df.typ != TypeArray {
          err := Some(TagMismatch(TypeArray, df.typ));
        } else if !df.value.FieldList? {
          err := Some(StoredValueMismatch(TypeArray));
        } else {
          var slice, e' := UnmarshalItems(df.value.items, Zeros(e, |df.value.items|));
          if e'.Some? {
            err := e';
          } else {
            value := VSlice(e, slice);
          }
        }
      case VArray(e, items) =>
        if df.typ != TypeArray {
          err := Some(TagMismatch(TypeArray, df.typ));
        } else if !df.value.FieldList? {
          err := Some(StoredValueMismatch(TypeArray));
        } else if |df.value.items| != |items| {
          err := Some(LengthMismatch(|df.value.items|, |items|));
        } else {
          var written;
          written, err := UnmarshalItems(df.value.items, items);
          value := VArray(e, written);
        }
      case VStruct(ms) =>
        if df.typ != TypeObject {
          err := Some(TagMismatch(TypeObject, df.typ));
        } else if df.value.Nil? {
        } else if df.value.NilDocument? {
          err := Some(Nested(DocIsNil));
        } else if !df.value.Doc? {
          err := Some(StoredValueMismatch(TypeObject));
        } else {
          var written, e' := UnmarshalMembers(df.value.doc, ms);
          value := VStruct(written);
          if e'.Some? {
            err := Some(Nested(e'.value));
          }
        }
      case VOther(k) =>
        err := Some(UnsupportedDestination(KindOther(k)));
    }
  }

  // ---------------------------------------------------------------------------------------------
  // The member loop, described member by member.

  /** What member `m` holds once the loop has passed it: an unexported member, or one the document lacks, is left alone. */
  ghost function MemberAfter(doc: Document, m: Member): Member
  {
    if m.exported && m.name in doc.fields then m.(value := UnmarshalledValue(doc.fields[m.name], m.value).value) else m
  }

  /** Writing member `m` from the document fails. */
  ghost predicate MemberFails(doc: Document, m: Member)
  {
    m.exported && m.name in doc.fields && UnmarshalledValue(doc.fields[m.name], m.value).err.Some?
  }

  /** Member `j` is the first failing member from `from` on. */
  ghost predicate StoppedAtMember(doc: Document, ms: seq<Member>, from: nat, j: nat)
  {
    && from <= j < |ms| && MemberFails(doc, ms[j])
    && forall k :: from <= k < j ==> !MemberFails(doc, ms[k])
  }

  /** Members `from <= k < upto` of `out` hold what the loop wrote into them; all others are as in `ms`. */
  ghost predicate MembersWritten(doc: Document, ms: seq<Member>, out: seq<Member>, from: nat, upto: nat)
  {
    |out| == |ms| && forall k :: 0 <= k < |ms| ==> out[k] == if from <= k < upto then MemberAfter(doc, ms[k]) else ms[k]
  }

  /** The member loop from `i` on succeeds iff no member from `i` on fails. */
  lemma {:induction false} MembersSucceedIff(doc: Document, ms: seq<Member>, i: nat)
    requires i <= |ms|
    ensures UnmarshalledMembers(doc, ms, i).err.None? <==> forall k :: i <= k < |ms| ==> !MemberFails(doc, ms[k])
    decreases |ms| - i
  {
    if i < |ms| {
      if !ms[i].exported || ms[i].name !in doc.fields {
        MembersSucceedIff(doc, ms, i + 1);
      } else if !MemberFails(doc, ms[i]) {
        var ms' := ms[i := MemberAfter(doc, ms[i])];
        MembersSucceedIff(doc, ms', i + 1);
        assert forall k :: i + 1 <= k < |ms| ==> ms'[k] == ms[k];
      }
    }
  }

  /** A successful member loop from `i` on has written every member from `i` on, and only those. */
  lemma {:induction false} MembersWrittenOnSuccess(doc: Document, ms: seq<Member>, i: nat)
    requires i <= |ms|
    requires UnmarshalledMembers(doc, ms, i).err.None?
    ensures MembersWritten(doc, ms, UnmarshalledMembers(doc, ms, i).value, i, |ms|)
    decreases |ms| - i
  {
    if i < |ms| {
      if !ms[i].exported || ms[i].name !in doc.fields {
        MembersWrittenOnSuccess(doc, ms, i + 1);
      } else {
        var ms' := ms[i := MemberAfter(doc, ms[i])];
        MembersWrittenOnSuccess(doc, ms', i + 1);
        assert forall k :: i + 1 <= k < |ms| ==> ms'[k] == ms[k];
      }
    }
  }

  /**
   * A failing member loop from `i` on stops at the first failing member, whose name and error the
   * error carries, with the members before it (and it) written and the members after it untouched.
   */
  lemma {:induction false} MembersStopAtFirstFailure(doc: Document, ms: seq<Member>, i: nat) returns (j: nat)
    requires i <= |ms|
    requires UnmarshalledMembers(doc, ms, i).err.Some?
    ensures StoppedAtMember(doc, ms, i, j)
    ensures UnmarshalledMembers(doc, ms, i).err.value
            == InField(ms[j].name, UnmarshalledValue(doc.fields[ms[j].name], ms[j].value).err.value)
    ensures MembersWritten(doc, ms, UnmarshalledMembers(doc, ms, i).value, i, j + 1)
    decreases |ms| - i
  {
    if !ms[i].exported || ms[i].name !in doc.fields {
      j := MembersStopAtFirstFailure(doc, ms, i + 1);
    } else if !MemberFails(doc, ms[i]) {
      var ms' := ms[i := MemberAfter(doc, ms[i])];
      j := MembersStopAtFirstFailure(doc, ms', i + 1);
      assert forall k :: i + 1 <= k < |ms| ==> ms'[k] == ms[k];
    } else {
      j := i;
    }
  }

  /** All three facts about the member loop from `i` on. */
  lemma UnmarshalledMembersSpec(doc: Document, ms: seq<Member>, i: nat)
    requires i <= |ms|
    ensures UnmarshalledMembers(doc, ms, i).err.None? <==> forall k :: i <= k < |ms| ==> !MemberFails(doc, ms[k])
    ensures UnmarshalledMembers(doc, ms, i).err.None? ==> MembersWritten(doc, ms, UnmarshalledMembers(doc, ms, i).value, i, |ms|)
    ensures UnmarshalledMembers(doc, ms, i).err.Some? ==>
      exists j: nat :: && StoppedAtMember(doc, ms, i, j)
                       && UnmarshalledMembers(doc, ms, i).err.value
                          == InField(ms[j].name, UnmarshalledValue(doc.fields[ms[j].name], ms[j].value).err.value)
                       && MembersWritten(doc, ms, UnmarshalledMembers(doc, ms, i).value, i, j + 1)
  {
    MembersSucceedIff(doc, ms, i);
    if UnmarshalledMembers(doc, ms, i).err.None? {
      MembersWrittenOnSuccess(doc, ms, i);
    } else {
      var _ := MembersStopAtFirstFailure(doc, ms, i);
    }
  }

  /** A failing member loop reports the failing member by name. */
  lemma MembersErrorNamesField(doc: Document, ms: seq<Member>)
    ensures UnmarshalledMembers(doc, ms, 0).err.Some? ==> UnmarshalledMembers(doc, ms, 0).err.value.InField?
  {
    UnmarshalledMembersSpec(doc, ms, 0);
  }

  // ---------------------------------------------------------------------------------------------
  // The element loop, described element by element.

  ghost predicate ItemFails(items: seq<DocumentField>, dests: seq<GoValue>, k: nat)
    requires k < |items| == |dests|
  {
    UnmarshalledValue(items[k], dests[k]).err.Some?
  }

  ghost predicate StoppedAtItem(items: seq<DocumentField>, dests: seq<GoValue>, from: nat, j: nat)
    requires |items| == |dests|
  {
    && from <= j < |dests| && ItemFails(items, dests, j)
    && forall k :: from <= k < j ==> !ItemFails(items, dests, k)
  }

  /** Elements `from <= k < upto` of `out` hold what was written into them from `items[k]`; all others are as in `dests`. */
  ghost predicate ItemsWritten(items: seq<DocumentField>, dests: seq<GoValue>, out: seq<GoValue>, from: nat, upto: nat)
    requires |items| == |dests|
  {
    |out| == |dests| &&
    forall k :: 0 <= k < |dests| ==> out[k] == if from <= k < upto then UnmarshalledValue(items[k], dests[k]).value else dests[k]
  }

  lemma {:induction false} ItemsSucceedIff(items: seq<DocumentField>, dests: seq<GoValue>, i: nat)
    requires |items| == |dests| && i <= |dests|
    ensures UnmarshalledItems(items, dests, i).err.None? <==> forall k :: i <= k < |dests| ==> !ItemFails(items, dests, k)
    decreases |dests| - i
  {
    if i < |dests| && !ItemFails(items, dests, i) {
      var dests' := dests[i := UnmarshalledValue(items[i], dests[i]).value];
      ItemsSucceedIff(items, dests', i + 1);
      assert forall k :: i + 1 <= k < |dests| ==> dests'[k] == dests[k] && (ItemFails(items, dests', k) <==> ItemFails(items, dests, k));
    }
  }

  lemma {:induction false} ItemsWrittenOnSuccess(items: seq<DocumentField>, dests: seq<GoValue>, i: nat)
    requires |items| == |dests| && i <= |dests|
    requires UnmarshalledItems(items, dests, i).err.None?
    ensures ItemsWritten(items, dests, UnmarshalledItems(items, dests, i).value, i, |dests|)
    decreases |dests| - i
  {
    if i < |dests| {
      var dests' := dests[i := UnmarshalledValue(items[i], dests[i]).value];
      ItemsWrittenOnSuccess(items, dests', i + 1);
      assert forall k :: i + 1 <= k < |dests| ==> dests'[k] == dests[k];
    }
  }

  lemma {:induction false} ItemsStopAtFirstFailure(items: seq<DocumentField>, dests: seq<GoValue>, i: nat)
    requires |items| == |dests| && i <= |dests|
    requires UnmarshalledItems(items, dests, i).err.Some?
    ensures exists j: nat :: && StoppedAtItem(items, dests, i, j)
                             && UnmarshalledItems(items, dests, i).err.value == InElement(j, UnmarshalledValue(items[j], dests[j]).err.value)
                             && ItemsWritten(items, dests, UnmarshalledItems(items, dests, i).value, i, j + 1)
    decreases |dests| - i
  {
    var r := UnmarshalledItems(items, dests, i);
    if !ItemFails(items, dests, i) {
      var dests' := dests[i := UnmarshalledValue(items[i], dests[i]).value];
      ItemsStopAtFirstFailure(items, dests', i + 1);
      var j: nat :| && StoppedAtItem(items, dests', i + 1, j)
                    && r.err.value == InElement(j, UnmarshalledValue(items[j], dests'[j]).err.value)
                    && ItemsWritten(items, dests', r.value, i + 1, j + 1);
      assert forall k :: i + 1 <= k < |dests| ==> dests'[k] == dests[k] && (ItemFails(items, dests', k) <==> ItemFails(items, dests, k));
      assert StoppedAtItem(items, dests, i, j);
    } else {
      assert StoppedAtItem(items, dests, i, i);
    }
  }

  /**
   * The element loop from `i` on succeeds iff no element fails, and then every element holds what
   * was written into it; otherwise it stops at the first failing element, whose index the error
   * carries, with the elements before it (and it) written and the ones after it untouched.
   */
  lemma UnmarshalledItemsSpec(items: seq<DocumentField>, dests: seq<GoValue>, i: nat)
    requires |items| == |dests| && i <= |dests|
    ensures UnmarshalledItems(items, dests, i).err.None? <==> forall k :: i <= k < |dests| ==> !ItemFails(items, dests, k)
    ensures UnmarshalledItems(items, dests, i).err.None? ==> ItemsWritten(items, dests, UnmarshalledItems(items, dests, i).value, i, |dests|)
    ensures UnmarshalledItems(items, dests, i).err.Some? ==>
      exists j: nat :: && StoppedAtItem(items, dests, i, j)
                       && UnmarshalledItems(items, dests, i).err.value == InElement(j, UnmarshalledValue(items[j], dests[j]).err.value)
                       && ItemsWritten(items, dests, UnmarshalledItems(items, dests, i).value, i, j + 1)
  {
    ItemsSucceedIff(items, dests, i);
    if UnmarshalledItems(items, dests, i).err.None? {
      ItemsWrittenOnSuccess(items, dests, i);
    } else {
      ItemsStopAtFirstFailure(items, dests, i);
    }
  }

  // ---------------------------------------------------------------------------------------------
  // unmarshalValue, case by case.

  /** The value unmarshalValue writes into once pointers are followed, nil ones replaced by a new zero target. */
  ghost function Target(dest: GoValue): GoValue
    decreases PtrDepth(dest)
  {
    match dest
    case VPtr(t) => Target(t)
    case VNilPtr(e) => Target(Zero(e))
    case _ => dest
  }

  /** Pointers are transparent to the checks: writing through them fails exactly as writing their target does. */
  lemma {:induction false} PointersFollowed(df: DocumentField, dest: GoValue)
    ensures KindOf(Target(dest)) != KindPtr
    ensures UnmarshalledValue(df, dest).err == UnmarshalledValue(df, Target(dest)).err
    ensures dest.VNilPtr? ==> UnmarshalledValue(df, dest).value.VPtr?
    decreases PtrDepth(dest)
  {
    match dest {
      case VPtr(t) => PointersFollowed(df, t);
      case VNilPtr(e) => PointersFollowed(df, Zero(e));
      case _ =>
    }
  }

  /** A tag that disagrees with the destination's kind is rejected, naming the expected tag and the stored one. */
  lemma TagChecked(df: DocumentField, dest: GoValue)
    requires TagOfKind(KindOf(Target(dest))).Some?
    requires Some(df.typ) != TagOfKind(KindOf(Target(dest)))
    ensures UnmarshalledValue(df, dest).err == Some(TagMismatch(TagOfKind(KindOf(Target(dest))).value, df.typ))
  {
    PointersFollowed(df, dest);
  }

  /** A destination of an unsupported kind (map, func, chan, ...) is rejected whatever the field holds. */
  lemma UnsupportedDestinationRejected(df: DocumentField, dest: GoValue)
    requires TagOfKind(KindOf(Target(dest))).None?
    ensures UnmarshalledValue(df, dest).err == Some(UnsupportedDestination(KindOf(Target(dest))))
  {
    PointersFollowed(df, dest);
  }

  /**
   * A string, bool or number destination is written iff the tag is its kind's tag and the payload is
   * a Go value of that kind; it then holds the payload. Otherwise it is left alone, and a payload of
   * the wrong type under the right tag is reported as such (for numbers: untyped nil is "invalid",
   * anything else "not convertible").
   */
  lemma UnmarshalScalar(df: DocumentField, dest: GoValue)
    requires dest.VString? || dest.VBool? || dest.VNumber?
    ensures UnmarshalledValue(df, dest).err.None? <==> Some(df.typ) == TagOfKind(KindOf(dest)) && WellTagged(df)
    ensures UnmarshalledValue(df, dest).err.None? ==> df.value == Value(UnmarshalledValue(df, dest).value)
    ensures UnmarshalledValue(df, dest).err.Some? ==> UnmarshalledValue(df, dest).value == dest
    ensures Some(df.typ) == TagOfKind(KindOf(dest)) && !WellTagged(df) ==>
      UnmarshalledValue(df, dest).err ==
        Some(if !dest.VNumber? then StoredValueMismatch(df.typ) else if df.value.Nil? then InvalidNumber else NotConvertible)
  {
  }

  /**
   * A fixed array whose length differs from the stored list's is rejected and left alone. With equal
   * lengths it fills its elements in order: all of them iff none fails, otherwise up to and including
   * the first failing one, keeping those writes and leaving the rest alone.
   */
  lemma UnmarshalArray(df: DocumentField, dest: GoValue)
    requires dest.VArray? && df.typ == TypeArray && df.value.FieldList?
    ensures |df.value.items| != |dest.items| ==>
      UnmarshalledValue(df, dest) == Written(dest, Some(LengthMismatch(|df.value.items|, |dest.items|)))
    ensures |df.value.items| == |dest.items| ==>
      var r := UnmarshalledValue(df, dest);
      && r.value.VArray? && r.value.elem == dest.elem
      && (r.err.None? <==> forall k :: 0 <= k < |dest.items| ==> !ItemFails(df.value.items, dest.items, k))
      && (r.err.None? ==> ItemsWritten(df.value.items, dest.items, r.value.items, 0, |dest.items|))
      && (r.err.Some? ==> exists j: nat ::
            && StoppedAtItem(df.value.items, dest.items, 0, j)
            && r.err.value == InElement(j, UnmarshalledValue(df.value.items[j], dest.items[j]).err.value)
            && ItemsWritten(df.value.items, dest.items, r.value.items, 0, j + 1))
  {
    if |df.value.items| == |dest.items| {
      UnmarshalledItemsSpec(df.value.items, dest.items, 0);
    }
  }

  /**
   * A slice destination ends up with exactly as many elements as the stored list, element `k`
   * unmarshalled from stored element `k` into a zero value, when every element succeeds; if any
   * fails, or the tag or payload is wrong, the slice is left as it was.
   */
  lemma UnmarshalSlice(df: DocumentField, dest: GoValue)
    requires dest.VSlice?
    ensures UnmarshalledValue(df, dest).err.None? <==>
      && df.typ == TypeArray && df.value.FieldList?
      && forall k :: 0 <= k < |df.value.items| ==> UnmarshalledValue(df.value.items[k], Zero(dest.elem)).err.None?
    ensures UnmarshalledValue(df, dest).err.None? ==>
      && UnmarshalledValue(df, dest).value.VSlice?
      && UnmarshalledValue(df, dest).value.elem == dest.elem
      && |UnmarshalledValue(df, dest).value.items| == |df.value.items|
      && forall k :: 0 <= k < |df.value.items| ==>
           UnmarshalledValue(df, dest).value.items[k] == UnmarshalledValue(df.value.items[k], Zero(dest.elem)).value
    ensures UnmarshalledValue(df, dest).err.Some? ==> UnmarshalledValue(df, dest).value == dest
  {
    if df.typ == TypeArray && df.value.FieldList? {
      var zs := Zeros(dest.elem, |df.value.items|);
      UnmarshalledItemsSpec(df.value.items, zs, 0);
      forall k | 0 <= k < |zs|
        ensures ItemFails(df.value.items, zs, k) <==> UnmarshalledValue(df.value.items[k], Zero(dest.elem)).err.Some?
      {
        assert zs[k] == Zero(dest.elem);
      }
    }
  }

  /**
   * An Object field into a struct: an untyped nil payload leaves the struct alone and succeeds; the
   * typed nil *Document fails as UnmarshalDocument(nil, ...) does; a payload that is not a
   * *Document is rejected; a *Document fills the struct exactly as UnmarshalDocument fills a pointer to it.
   */
  lemma UnmarshalStruct(df: DocumentField, dest: GoValue)
    requires dest.VStruct? && df.typ == TypeObject
    ensures df.value.Nil? ==> UnmarshalledValue(df, dest) == Written(dest, None)
    ensures df.value.NilDocument? ==> UnmarshalledValue(df, dest) == Written(dest, Some(Nested(DocIsNil)))
    ensures df.value.Value? || df.value.FieldList? ==>
      UnmarshalledValue(df, dest) == Written(dest, Some(StoredValueMismatch(TypeObject)))
    ensures df.value.Doc? ==>
      var top := Unmarshalled(Some(df.value.doc), Some(VPtr(dest)));
      && top.value == Some(VPtr(UnmarshalledValue(df, dest).value))
      && (top.err.None? <==> UnmarshalledValue(df, dest).err.None?)
      && (top.err.Some? ==> UnmarshalledValue(df, dest).err == Some(Nested(top.err.value)))
  {
  }

  // ---------------------------------------------------------------------------------------------
  // UnmarshalDocument.

  /** The argument guards, in the source's order; a rejected output is not touched. */
  lemma UnmarshalDocumentGuards(doc: Option<Document>, output: Option<GoValue>)
    ensures Unmarshalled(doc, output).err == Some(DocIsNil) <==> doc.None?
    ensures Unmarshalled(doc, output).err == Some(OutputIsNil) <==> doc.Some? && output.None?
    ensures Unmarshalled(doc, output).err == Some(OutputNotPointer) <==>
      doc.Some? && output.Some? && !output.value.VPtr?
    ensures forall k :: Unmarshalled(doc, output).err == Some(OutputNotStruct(k)) <==>
      doc.Some? && output.Some? && output.value.VPtr? && !output.value.target.VStruct? && k == KindOf(output.value.target)
    ensures Unmarshalled(doc, output).err.Some? && !Unmarshalled(doc, output).err.value.InField? ==>
      Unmarshalled(doc, output).value == output
  {
    if doc.Some? && output.Some? && output.value.VPtr? && output.value.target.VStruct? {
      MembersErrorNamesField(doc.value, output.value.target.members);
    }
  }

  /**
   * With valid arguments, UnmarshalDocument succeeds iff no member fails, and then each member holds
   * what was written into it (missing and unexported members unchanged). Otherwise it stops at the
   * first failing member in declaration order, names it, keeps the writes before it and leaves the
   * members after it untouched.
   */
  lemma UnmarshalDocumentFields(doc: Document, ms: seq<Member>)
    ensures var r := Unmarshalled(Some(doc), Some(VPtr(VStruct(ms))));
      && r.value.Some? && r.value.value.VPtr? && r.value.value.target.VStruct?
      && (r.err.None? <==> forall k :: 0 <= k < |ms| ==> !MemberFails(doc, ms[k]))
      && (r.err.None? ==> MembersWritten(doc, ms, r.value.value.target.members, 0, |ms|))
      && (r.err.Some? ==> exists j: nat ::
            && StoppedAtMember(doc, ms, 0, j)
            && r.err.value == InField(ms[j].name, UnmarshalledValue(doc.fields[ms[j].name], ms[j].value).err.value)
            && MembersWritten(doc, ms, r.value.value.target.members, 0, j + 1))
  {
    UnmarshalledMembersSpec(doc, ms, 0);
  }

  // ---------------------------------------------------------------------------------------------
  // The destination keeps its type.

  /** If every element write keeps the element type, so does the element loop, wherever it stops. */
  lemma ItemsKeepType(items: seq<DocumentField>, dests: seq<GoValue>, e: GoType)
    requires |items| == |dests|
    requires forall k :: 0 <= k < |dests| ==> TypeOf(dests[k]) == e && WellTyped(dests[k])
    requires forall k :: 0 <= k < |dests| ==>
      TypeOf(UnmarshalledValue(items[k], dests[k]).value) == e && WellTyped(UnmarshalledValue(items[k], dests[k]).value)
    ensures forall k :: 0 <= k < |dests| ==>
      TypeOf(UnmarshalledItems(items, dests, 0).value[k]) == e && WellTyped(UnmarshalledItems(items, dests, 0).value[k])
  {
    UnmarshalledItemsSpec(items, dests, 0);
  }

  /** Wherever the member loop stops, it has written a prefix of the members and left the rest alone. */
  lemma MembersWrittenPrefix(doc: Document, ms: seq<Member>) returns (upto: nat)
    ensures upto <= |ms| && MembersWritten(doc, ms, UnmarshalledMembers(doc, ms, 0).value, 0, upto)
  {
    if UnmarshalledMembers(doc, ms, 0).err.None? {
      MembersWrittenOnSuccess(doc, ms, 0);
      upto := |ms|;
    } else {
      var j := MembersStopAtFirstFailure(doc, ms, 0);
      upto := j + 1;
    }
  }

  /** If every member write keeps the member's type, the member loop keeps the struct's type, wherever it stops. */
  lemma MembersKeepType(doc: Document, ms: seq<Member>)
    requires DistinctNames(ms) && forall k :: 0 <= k < |ms| ==> WellTyped(ms[k].value)
    requires forall k :: 0 <= k < |ms| ==>
      TypeOf(MemberAfter(doc, ms[k]).value) == TypeOf(ms[k].value) && WellTyped(MemberAfter(doc, ms[k]).value)
    ensures MemberDecls(UnmarshalledMembers(doc, ms, 0).value) == MemberDecls(ms)
    ensures DistinctNames(UnmarshalledMembers(doc, ms, 0).value)
    ensures forall k :: 0 <= k < |ms| ==> WellTyped(UnmarshalledMembers(doc, ms, 0).value[k].value)
  {
    var out := UnmarshalledMembers(doc, ms, 0).value;
    var upto := MembersWrittenPrefix(doc, ms);
    assert forall k :: 0 <= k < |ms| ==> out[k] == ms[k] || out[k] == MemberAfter(doc, ms[k]);
    assert forall k :: 0 <= k < |ms| ==>
      out[k].name == ms[k].name && out[k].exported == ms[k].exported && TypeOf(out[k].value) == TypeOf(ms[k].value);
    assert MemberDecls(out) == MemberDecls(ms);
  }

  /** The slice case of UnmarshalPreservesType, given that each element write into a zero element keeps its type. */
  lemma SliceKeepsType(df: DocumentField, e: GoType, xs: seq<GoValue>)
    requires WellTyped(VSlice(e, xs))
    requires df.typ == TypeArray && df.value.FieldList? ==> forall k :: 0 <= k < |df.value.items| ==>
      TypeOf(UnmarshalledValue(df.value.items[k], Zero(e)).value) == e && WellTyped(UnmarshalledValue(df.value.items[k], Zero(e)).value)
    ensures TypeOf(UnmarshalledValue(df, VSlice(e, xs)).value) == TypeOf(VSlice(e, xs))
    ensures WellTyped(UnmarshalledValue(df, VSlice(e, xs)).value)
  {
    if df.typ == TypeArray && df.value.FieldList? {
      var fl := df.value.items;
      ZeroWellTyped(e);
      ItemsKeepType(fl, Zeros(e, |fl|), e);
    }
  }

  /** The array case of UnmarshalPreservesType, given that each element write keeps the element's type. */
  lemma ArrayKeepsType(df: DocumentField, e: GoType, xs: seq<GoValue>)
    requires WellTyped(VArray(e, xs))
    requires df.typ == TypeArray && df.value.FieldList? && |df.value.items| == |xs| ==> forall k :: 0 <= k < |xs| ==>
      TypeOf(UnmarshalledValue(df.value.items[k], xs[k]).value) == e && WellTyped(UnmarshalledValue(df.value.items[k], xs[k]).value)
    ensures TypeOf(UnmarshalledValue(df, VArray(e, xs)).value) == TypeOf(VArray(e, xs))
    ensures WellTyped(UnmarshalledValue(df, VArray(e, xs)).value)
  {
    if df.typ == TypeArray && df.value.FieldList? && |df.value.items| == |xs| {
      ItemsKeepType(df.value.items, xs, e);
    }
  }

  /** The struct case of UnmarshalPreservesType, given that each member write keeps the member's type. */
  lemma StructKeepsType(df: DocumentField, ms: seq<Member>)
    requires WellTyped(VStruct(ms))
    requires df.typ == TypeObject && df.value.Doc? ==> forall k :: 0 <= k < |ms| ==>
      TypeOf(MemberAfter(df.value.doc, ms[k]).value) == TypeOf(ms[k].value) && WellTyped(MemberAfter(df.value.doc, ms[k]).value)
    ensures TypeOf(UnmarshalledValue(df, VStruct(ms)).value) == TypeOf(VStruct(ms))
    ensures WellTyped(UnmarshalledValue(df, VStruct(ms)).value)
  {
    if df.typ == TypeObject && df.value.Doc? {
      var out := UnmarshalledMembers(df.value.doc, ms, 0).value;
      MembersKeepType(df.value.doc, ms);
      assert UnmarshalledValue(df, VStruct(ms)).value == VStruct(out);
      assert TypeOf(VStruct(out)) == TStruct(MemberDecls(out));
    } else {
      assert UnmarshalledValue(df, VStruct(ms)).value == VStruct(ms);
    }
  }

  /**
   * Unmarshalling never changes the destination's Go type and keeps it a value Go can hold, whether
   * it succeeds or stops half way (reflect's Set would panic otherwise).
   */
  lemma {:induction false} UnmarshalPreservesType(df: DocumentField, dest: GoValue)
    requires WellTyped(dest)
    ensures TypeOf(UnmarshalledValue(df, dest).value) == TypeOf(dest)
    ensures WellTyped(UnmarshalledValue(df, dest).value)
    decreases df, 1, PtrDepth(dest)
  {
    match dest {
      case VPtr(t) =>
        UnmarshalPreservesType(df, t);
      case VNilPtr(e) =>
        ZeroWellTyped(e);
        UnmarshalPreservesType(df, Zero(e));
      case VSlice(e, xs) =>
        if df.typ == TypeArray && df.value.FieldList? {
          var fl := df.value.items;
          ZeroWellTyped(e);
          forall k | 0 <= k < |fl|
            ensures TypeOf(UnmarshalledValue(fl[k], Zero(e)).value) == e && WellTyped(UnmarshalledValue(fl[k], Zero(e)).value)
          {
            UnmarshalPreservesType(fl[k], Zero(e));
          }
        }
        SliceKeepsType(df, e, xs);
      case VArray(e, xs) =>
        if df.typ == TypeArray && df.value.FieldList? && |df.value.items| == |xs| {
          var fl := df.value.items;
          forall k | 0 <= k < |fl|
            ensures TypeOf(UnmarshalledValue(fl[k], xs[k]).value) == e && WellTyped(UnmarshalledValue(fl[k], xs[k]).value)
          {
            UnmarshalPreservesType(fl[k], xs[k]);
          }
        }
        ArrayKeepsType(df, e, xs);
      case VStruct(ms) =>
        if df.typ == TypeObject && df.value.Doc? {
          var d := df.value.doc;
          forall k | 0 <= k < |ms|
            ensures TypeOf(MemberAfter(d, ms[k]).value) == TypeOf(ms[k].value) && WellTyped(MemberAfter(d, ms[k]).value)
          {
            if ms[k].exported && ms[k].name in d.fields {
              UnmarshalPreservesType(d.fields[ms[k].name], ms[k].value);
            }
          }
        }
        StructKeepsType(df, ms);
      case _ =>
    }
  }
}
