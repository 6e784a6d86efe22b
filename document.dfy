/**
 * The document representation (lesson_07/internal/documentstore/document.go, the types at the top of
 * the file): a Document maps field names to (tag, value) pairs.
 */
module DocumentModel {
  import opened Wrappers
  import opened GoValues

  /**
   * `DocumentFieldType`. Go declares it as a string type with five named constants; any other
   * string can still be stored in a field, which `TypeOther` stands for.
   */
  datatype DocumentFieldType =
    | TypeString | TypeNumber | TypeBool | TypeArray | TypeObject
    | TypeOther(name: string)

  /**
   * The dynamic content of `DocumentField.Value`, a Go `any`. It is independent of the tag: Go lets
   * them disagree. The untyped `nil` and the typed nil `*Document` are different values in Go.
   */
  datatype Payload =
    | Nil                                   // the untyped nil interface value
    | NilDocument                           // (*Document)(nil)
    | Doc(doc: Document)                    // a non-nil *Document
    | FieldList(items: seq<DocumentField>)  // a []DocumentField
    | Value(v: GoValue)                     // any other Go value (a string, a bool, a number, a [3]string, a struct ...)

  datatype DocumentField = DocumentField(typ: DocumentFieldType, value: Payload)

  datatype Document = Document(fields: map<string, DocumentField>)

  /** The tag a value of kind `k` is stored under, if the engine supports that kind. */
  function TagOfKind(k: Kind): Option<DocumentFieldType>
  {
    match k
    case KindString => Some(TypeString)
    case KindBool => Some(TypeBool)
    case KindNumber => Some(TypeNumber)
    case KindSlice => Some(TypeArray)
    case KindArray => Some(TypeArray)
    case KindStruct => Some(TypeObject)
    case KindPtr => Some(TypeObject)
    case KindOther(_) => None
  }

  /** The field's tag agrees with the shape of its payload, all the way down. */
  ghost predicate WellTagged(df: DocumentField)
    decreases df
  {
    match df.typ
    case TypeString => df.value.Value? && df.value.v.VString?
    case TypeBool => df.value.Value? && df.value.v.VBool?
    case TypeNumber => df.value.Value? && df.value.v.VNumber?
    case TypeArray =>
      df.value.FieldList? && forall i :: 0 <= i < |df.value.items| ==> WellTagged(df.value.items[i])
    case TypeObject =>
      || df.value.NilDocument?
      || (df.value.Doc? && forall k :: k in df.value.doc.fields ==> WellTagged(df.value.doc.fields[k]))
    case TypeOther(_) => false
  }

  ghost predicate WellTaggedDocument(d: Document)
  {
    forall k :: k in d.fields ==> WellTagged(d.fields[k])
  }
}
