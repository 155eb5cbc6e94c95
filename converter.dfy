/**
 * The attribute converter: from a PynamoDB attribute to the GraphQL field
 * descriptor that exposes it (graphene_pynamodb/converter.py).
 */
module Converter {
  import opened Wrappers
  import opened Schema

  /** The GraphQL scalar and list types the converter produces. */
  datatype GraphType = GString | GID | GInt | GBoolean | GJSONString | GListOfString

  /** A GraphQL field descriptor: its type, its description and whether it is required (non-null). */
  datatype FieldDescriptor = FieldDescriptor(ty: GraphType, description: string, required: bool)

  /** A composite attribute and the class of its composite value. */
  datatype Composite = Composite(name: string, compositeClass: string)

  predicate IsTextKind(k: AttrKind) {
    k == Unicode || k == Binary || k == UTCDateTime
  }

  predicate IsSetKind(k: AttrKind) {
    k == UnicodeSet || k == NumberSet || k == BinarySet
  }

  /** The kinds that have a registered conversion handler. */
  predicate IsRegistered(k: AttrKind) {
    IsTextKind(k) || IsSetKind(k) || k == Number || k == Boolean || k == Json
  }

  /**
   * `convert_pynamo_attribute`. Text kinds read `null` with a default of
   * `True`; Number, Boolean and JSON read `attribute.null` directly and raise
   * AttributeError when the attribute has no such member; set kinds never set
   * `required`; an unregistered kind raises an error naming the attribute.
   */
  function ConvertAttribute(a: Attribute): (r: Result<FieldDescriptor, Error>)
    ensures !IsRegistered(a.kind) <==> r == Err(UnsupportedAttribute(a.name))
    ensures r.Ok? ==> r.value.description == a.name
    ensures r.Ok? ==> (r.value.ty == GListOfString <==> IsSetKind(a.kind))
    ensures r.Ok? && IsSetKind(a.kind) ==> !r.value.required
    ensures r.Ok? && !IsSetKind(a.kind) ==> r.value.required == (a.nullable == Some(false))
    ensures IsTextKind(a.kind) || IsSetKind(a.kind) ==> r.Ok?
    ensures IsRegistered(a.kind) && !IsTextKind(a.kind) && !IsSetKind(a.kind) ==>
      (r.Err? <==> a.nullable.None?)
    ensures r.Ok? ==> (r.value.ty == GID <==> a.kind == Number && a.isHashKey)
  {
    match a.kind
    case Unicode | Binary | UTCDateTime =>
      var isNull := match a.nullable case Some(b) => b case None => true;
      Ok(FieldDescriptor(GString, a.name, !isNull))
    case Number =>
      // `attribute.is_hash_key` is read before `attribute.null`
      if a.nullable.None? then Err(AttributeError("null"))
      else if a.isHashKey then Ok(FieldDescriptor(GID, a.name, !a.nullable.value))
      else Ok(FieldDescriptor(GInt, a.name, !a.nullable.value))
    case Boolean =>
      if a.nullable.None? then Err(AttributeError("null"))
      else Ok(FieldDescriptor(GBoolean, a.name, !a.nullable.value))
    case Json =>
      if a.nullable.None? then Err(AttributeError("null"))
      else Ok(FieldDescriptor(GJSONString, a.name, !a.nullable.value))
    case UnicodeSet | NumberSet | BinarySet =>
      Ok(FieldDescriptor(GListOfString, a.name, false))
    case _ =>
      Err(UnsupportedAttribute(a.name))
  }

  /** The scalar type each registered kind converts to, as a table. */
  function KindType(k: AttrKind, isHashKey: bool): Option<GraphType> {
    match k
    case Unicode => Some(GString)
    case Binary => Some(GString)
    case UTCDateTime => Some(GString)
    case Number => Some(if isHashKey then GID else GInt)
    case Boolean => Some(GBoolean)
    case Json => Some(GJSONString)
    case UnicodeSet => Some(GListOfString)
    case NumberSet => Some(GListOfString)
    case BinarySet => Some(GListOfString)
    case _ => None
  }

  /** The converter agrees with the kind table: it succeeds with the table's type or fails. */
  lemma ConvertAgreesWithTable(a: Attribute)
    ensures KindType(a.kind, a.isHashKey).None? ==> ConvertAttribute(a).Err?
    ensures ConvertAttribute(a).Ok? ==> Some(ConvertAttribute(a).value.ty) == KindType(a.kind, a.isHashKey)
    ensures KindType(a.kind, a.isHashKey).Some? && a.nullable.Some? ==> ConvertAttribute(a).Ok?
  {
  }

  /** `convert_relationship`: relationships are not converted automatically; it always raises. */
  function ConvertRelationship(rel: Attribute): (r: Result<FieldDescriptor, Error>)
    ensures r.Err? && r.error.ConversionError?
  {
    Err(ConversionError("PynamoDB doesn't support relationships out of the box yet " + rel.name))
  }

  /**
   * `convert_pynamo_composite`: look up the converter registered for the
   * composite's class and apply it, or raise when there is none.
   */
  function ConvertComposite(c: Composite, converters: map<string, Composite -> FieldDescriptor>)
    : (r: Result<FieldDescriptor, Error>)
    ensures r.Err? <==> c.compositeClass !in converters
    ensures r.Ok? ==> r.value == converters[c.compositeClass](c)
  {
    if c.compositeClass in converters then Ok(converters[c.compositeClass](c))
    else Err(ConversionError("Don't know how to convert the composite field " + c.name))
  }
}
