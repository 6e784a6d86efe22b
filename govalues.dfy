/**
 * The part of Go's type and value universe that the document engine inspects through `reflect`.
 * A closed datatype replaces run-time reflection: every value carries its kind, and where Go needs
 * a static type to build a zero value (slice elements, a nil pointer's target) the value carries it too.
 */
module GoValues {

  /** Kinds the document engine does not support: maps, funcs, chans, interfaces, complex numbers, unsafe pointers. */
  datatype OtherKind = Map | Func | Chan | Interface | Complex | UnsafePointer

  /** `reflect.Kind`, with every integer, unsigned and floating-point kind folded into `KindNumber`. */
  datatype Kind =
    | KindString | KindBool | KindNumber | KindSlice | KindArray | KindStruct | KindPtr
    | KindOther(other: OtherKind)

  datatype GoType =
    | TString
    | TBool
    | TNumber
    | TSlice(elem: GoType)
    | TArray(length: nat, elem: GoType)
    | TStruct(fields: seq<FieldDecl>)
    | TPtr(elem: GoType)
    | TOther(kind: OtherKind)

  /** A struct field declaration; `exported` is false exactly when `reflect.StructField.PkgPath` is non-empty. */
  datatype FieldDecl = FieldDecl(name: string, exported: bool, typ: GoType)

  datatype GoValue =
    | VString(s: string)
    | VBool(b: bool)
    | VNumber(n: int)
    | VSlice(elem: GoType, items: seq<GoValue>)
    | VArray(elem: GoType, items: seq<GoValue>)
    | VStruct(members: seq<Member>)
    | VPtr(target: GoValue)
    | VNilPtr(elem: GoType)
    | VOther(kind: OtherKind)

  /** One member of a struct value, in declaration order. */
  datatype Member = Member(name: string, exported: bool, value: GoValue)

  function KindOf(v: GoValue): Kind
  {
    match v
    case VString(_) => KindString
    case VBool(_) => KindBool
    case VNumber(_) => KindNumber
    case VSlice(_, _) => KindSlice
    case VArray(_, _) => KindArray
    case VStruct(_) => KindStruct
    case VPtr(_) => KindPtr
    case VNilPtr(_) => KindPtr
    case VOther(k) => KindOther(k)
  }

  /** The declarations of a struct value's members. */
  function MemberDecls(ms: seq<Member>): (fs: seq<FieldDecl>)
    ensures |fs| == |ms|
    ensures forall i :: 0 <= i < |ms| ==>
      fs[i].name == ms[i].name && fs[i].exported == ms[i].exported && fs[i].typ == TypeOf(ms[i].value)
    decreases ms, 0
  {
    if ms == [] then []
    else [FieldDecl(ms[0].name, ms[0].exported, TypeOf(ms[0].value))] + MemberDecls(ms[1..])
  }

  /** The dynamic type of a value (`reflect.Value.Type()`). */
  function TypeOf(v: GoValue): GoType
    decreases v, 1
  {
    match v
    case VString(_) => TString
    case VBool(_) => TBool
    case VNumber(_) => TNumber
    case VSlice(e, _) => TSlice(e)
    case VArray(e, items) => TArray(|items|, e)
    case VStruct(ms) => TStruct(MemberDecls(ms))
    case VPtr(t) => TPtr(TypeOf(t))
    case VNilPtr(e) => TPtr(e)
    case VOther(k) => TOther(k)
  }

  /**
   * No two exported members share a name. Go forbids duplicate names among all non-blank fields;
   * unexported fields (blank `_` ones among them) are never looked up by name here, so only the
   * exported ones need distinct names.
   */
  ghost predicate DistinctNames(ms: seq<Member>)
  {
    forall i, j :: 0 <= i < j < |ms| && ms[i].exported && ms[j].exported ==> ms[i].name != ms[j].name
  }

  ghost predicate DistinctDeclNames(fs: seq<FieldDecl>)
  {
    forall i, j :: 0 <= i < j < |fs| && fs[i].exported && fs[j].exported ==> fs[i].name != fs[j].name
  }

  /** Every struct type reachable from `t` has distinct exported field names. */
  ghost predicate WellFormedType(t: GoType)
  {
    match t
    case TSlice(e) => WellFormedType(e)
    case TArray(_, e) => WellFormedType(e)
    case TStruct(fs) => DistinctDeclNames(fs) && forall i :: 0 <= i < |fs| ==> WellFormedType(fs[i].typ)
    case TPtr(e) => WellFormedType(e)
    case _ => true
  }

  /** A value Go could actually hold: slice and array elements have the element type, exported member names are distinct. */
  ghost predicate WellTyped(v: GoValue)
  {
    match v
    case VSlice(e, items) =>
      WellFormedType(e) && forall i :: 0 <= i < |items| ==> TypeOf(items[i]) == e && WellTyped(items[i])
    case VArray(e, items) =>
      WellFormedType(e) && forall i :: 0 <= i < |items| ==> TypeOf(items[i]) == e && WellTyped(items[i])
    case VStruct(ms) => DistinctNames(ms) && forall i :: 0 <= i < |ms| ==> WellTyped(ms[i].value)
    case VPtr(t) => WellTyped(t)
    case VNilPtr(e) => WellFormedType(e)
    case _ => true
  }

  /** The number of pointer layers on top of a value; a nil pointer counts the layers of its target type. */
  function PtrDepth(v: GoValue): nat
  {
    match v
    case VPtr(t) => 1 + PtrDepth(t)
    case VNilPtr(e) => 1 + TypePtrDepth(e)
    case _ => 0
  }

  function TypePtrDepth(t: GoType): nat
  {
    if t.TPtr? then 1 + TypePtrDepth(t.elem) else 0
  }

  /** Go's zero value of a type (`reflect.New(t).Elem()`): nil pointers, empty slices, zeroed arrays and structs. */
  function Zero(t: GoType): (z: GoValue)
    ensures TypeOf(z) == t
    ensures PtrDepth(z) == TypePtrDepth(t)
  {
    match t
    case TString => VString("")
    case TBool => VBool(false)
    case TNumber => VNumber(0)
    case TSlice(e) => VSlice(e, [])
    case TArray(n, e) => VArray(e, seq(n, _ => Zero(e)))
    case TStruct(fs) => VStruct(ZeroMembers(fs))
    case TPtr(e) => VNilPtr(e)
    case TOther(k) => VOther(k)
  }

  function ZeroMembers(fs: seq<FieldDecl>): (ms: seq<Member>)
    ensures MemberDecls(ms) == fs
    ensures forall i :: 0 <= i < |ms| ==> ms[i] == Member(fs[i].name, fs[i].exported, Zero(fs[i].typ))
  {
    if fs == [] then []
    else [Member(fs[0].name, fs[0].exported, Zero(fs[0].typ))] + ZeroMembers(fs[1..])
  }

  lemma {:induction false} ZeroWellTyped(t: GoType)
    requires WellFormedType(t)
    ensures WellTyped(Zero(t))
  {
    match t {
      case TArray(n, e) =>
        ZeroWellTyped(e);
      case TStruct(fs) =>
        var ms := ZeroMembers(fs);
        forall i | 0 <= i < |ms| ensures WellTyped(ms[i].value) {
          ZeroWellTyped(fs[i].typ);
        }
        assert DistinctNames(ms) by {
          forall i, j | 0 <= i < j < |ms| && ms[i].exported && ms[j].exported ensures ms[i].name != ms[j].name {
            assert ms[i].name == fs[i].name && ms[j].name == fs[j].name;
            assert ms[i].exported == fs[i].exported && ms[j].exported == fs[j].exported;
          }
        }
      case _ =>
    }
  }

  /** The type of a value Go can hold is a type Go can declare. */
  lemma {:induction false} WellTypedHasWellFormedType(v: GoValue)
    requires WellTyped(v)
    ensures WellFormedType(TypeOf(v))
  {
    match v {
      case VPtr(t) =>
        WellTypedHasWellFormedType(t);
      case VStruct(ms) =>
        var fs := MemberDecls(ms);
        forall i | 0 <= i < |fs| ensures WellFormedType(fs[i].typ) {
          WellTypedHasWellFormedType(ms[i].value);
        }
        assert DistinctDeclNames(fs) by {
          forall i, j | 0 <= i < j < |fs| && fs[i].exported && fs[j].exported ensures fs[i].name != fs[j].name {
            assert fs[i].name == ms[i].name && fs[j].name == ms[j].name;
          }
        }
      case _ =>
    }
  }
}
