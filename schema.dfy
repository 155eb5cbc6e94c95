/**
 * The storage-side vocabulary the binding layer works on: attribute values,
 * PynamoDB attribute kinds, model classes and records, and the errors the
 * code raises.
 */
module Schema {
  import opened Wrappers
  import Numerals

  /** A Python value held by a record attribute. */
  datatype Value =
    | VStr(s: string)
    | VNum(n: int)
    | VBool(b: bool)
    | VNone
    | VDict(entries: seq<(string, string)>)   // a dict of strings, in insertion order; its keys are distinct (see `UniqueKeys`)

  /** The PynamoDB attribute classes the converter distinguishes, plus the two relationship kinds. */
  datatype AttrKind =
    | Unicode | Binary | UTCDateTime | Number | Boolean
    | UnicodeSet | NumberSet | BinarySet | Json
    | OneToOneRel | OneToManyRel
    | Unregistered(className: string, attrType: string)   // an attribute class with no converter

  /**
   * An attribute declared on a model. `nullable` is the `null` flag; `None` when the attribute
   * object has no `null` member at all.
   */
  datatype Attribute = Attribute(
    name: string,
    kind: AttrKind,
    isHashKey: bool,
    isRangeKey: bool,
    nullable: Option<bool>)

  /**
   * A class handed to the layer as a model. `isModel` says whether it is a
   * subclass of PynamoDB's `Model`; `ancestors` names its model superclasses.
   */
  datatype ModelClass = ModelClass(
    name: string,
    attributes: seq<Attribute>,
    isModel: bool,
    ancestors: set<string>)

  /** A record: an instance of a model class with its attribute values. */
  datatype Record = Record(model: ModelClass, values: map<string, Value>)

  datatype Error =
    | TypeError(what: string)
    | KeyError(key: Value)
    | ValueError(text: string)
    | AttributeError(name: string)
    | IndexError(index: int)
    | DoesNotExist(key: Value)
    | UnsupportedAttribute(name: string)
    | ConversionError(what: string)
    | AssertionError(what: string)

  /** `isinstance(r, m)`: `r`'s class is `m` or a subclass of it. */
  predicate IsInstance(r: Record, m: ModelClass) {
    r.model == m || m.name in r.model.ancestors
  }

  /** The attribute declared under `name`, the first one in declaration order. */
  function AttrByName(attrs: seq<Attribute>, name: string): (r: Option<Attribute>)
    ensures r.Some? ==> r.value in attrs && r.value.name == name
    ensures r.None? <==> forall i :: 0 <= i < |attrs| ==> attrs[i].name != name
  {
    if |attrs| == 0 then None
    else if attrs[0].name == name then Some(attrs[0])
    else AttrByName(attrs[1..], name)
  }

  /**
   * `getattr(record, name)` for a declared attribute that is unset or set:
   * an unset attribute reads as `None`.
   */
  function FieldOf(r: Record, name: string): Value {
    if name in r.values then r.values[name] else VNone
  }

  /** `getattr(record, name)`: a set value, `None` for a declared but unset attribute, else AttributeError. */
  function RecordAttr(r: Record, name: string): (v: Result<Value, Error>)
    ensures name in r.values ==> v == Ok(r.values[name])
    ensures v.Err? <==> name !in r.values && AttrByName(r.model.attributes, name).None?
  {
    if name in r.values then Ok(r.values[name])
    else if AttrByName(r.model.attributes, name).Some? then Ok(VNone)
    else Err(AttributeError(name))
  }

  /**
   * Python's `str(v)`: a string is itself, an integer its decimal text (which
   * `int` reads back), a dict its braced items.
   */
  function PyStr(v: Value): (r: string)
    ensures v.VStr? ==> r == v.s
    ensures v.VNum? ==> Numerals.ParseInt(r) == Some(v.n)
    ensures v.VBool? ==> r == (if v.b then "True" else "False")
    ensures v.VNone? ==> r == "None"
    ensures v.VDict? ==> |r| >= 2 && r[0] == '{' && r[|r| - 1] == '}'
  {
    match v
    case VStr(s) => s
    case VNum(n) => Numerals.ParseIntToString(n); Numerals.IntToString(n)
    case VBool(b) => if b then "True" else "False"
    case VNone => "None"
    case VDict(entries) => "{" + DictItems(entries) + "}"
  }

  /** The items of a dict's `str`, each as `'k': 'v'` (quotes inside keys or values are not escaped). */
  function DictItems(entries: seq<(string, string)>): string {
    if |entries| == 0 then ""
    else
      "'" + entries[0].0 + "': '" + entries[0].1 + "'"
      + (if |entries| == 1 then "" else ", " + DictItems(entries[1..]))
  }

  /** `d[k]` on a dict held as its items: the value under `k`, or `None` for the KeyError. */
  function DictGet<V(==)>(entries: seq<(string, V)>, k: string): (r: Option<V>)
    ensures r.Some? <==> exists i :: 0 <= i < |entries| && entries[i].0 == k
    ensures r.Some? ==> exists i :: (0 <= i < |entries| && entries[i] == (k, r.value) &&
      forall j :: 0 <= j < i ==> entries[j].0 != k)
  {
    if |entries| == 0 then None
    else if entries[0].0 == k then Some(entries[0].1)
    else
      var r := DictGet(entries[1..], k);
      assert forall i :: 0 < i < |entries| ==> entries[i] == entries[1..][i - 1];
      if r.Some? then
        var i :| (0 <= i < |entries[1..]| && entries[1..][i] == (k, r.value) &&
          forall j :: 0 <= j < i ==> entries[1..][j].0 != k);
        assert entries[i + 1] == (k, r.value);
        r
      else r
  }

  /** A dict's items name each key once: what a Python dict holds. */
  predicate UniqueKeys<V>(entries: seq<(string, V)>) {
    forall i, j :: 0 <= i < j < |entries| ==> entries[i].0 != entries[j].0
  }

  /** With distinct keys, the first-match lookup finds exactly the value stored under the key. */
  lemma DictGetUnique<V>(entries: seq<(string, V)>, k: string, v: V)
    requires UniqueKeys(entries)
    ensures DictGet(entries, k) == Some(v) <==> (k, v) in entries
  {
    if (k, v) in entries {
      var i :| 0 <= i < |entries| && entries[i] == (k, v);
      var r := DictGet(entries, k);
      var i' :| (0 <= i' < |entries| && entries[i'] == (k, r.value) && forall j :: 0 <= j < i' ==> entries[j].0 != k);
      assert i == i';
    }
  }

  /**
   * The `attr_type` tag PynamoDB gives each attribute class (pynamodb 3 and
   * later use DynamoDB's own short type names).
   */
  function AttrType(k: AttrKind): string {
    match k
    case Unicode => "S"
    case UTCDateTime => "S"
    case Json => "S"
    case Binary => "B"
    case Number => "N"
    case Boolean => "BOOL"
    case UnicodeSet => "SS"
    case NumberSet => "NS"
    case BinarySet => "BS"
    case OneToOneRel => "S"
    case OneToManyRel => "L"
    case Unregistered(_, t) => t
  }

  /**
   * The attribute-name of the first hash-key attribute in declaration order;
   * this is what `get_key_name` computes for a model on a cache miss.
   */
  function FirstHashKey(attrs: seq<Attribute>): Option<string> {
    if |attrs| == 0 then None
    else if attrs[0].isHashKey then Some(attrs[0].name)
    else FirstHashKey(attrs[1..])
  }

  /** `FirstHashKey` finds the first hash key, and finds nothing exactly when there is none. */
  lemma {:induction false} FirstHashKeyIsFirst(attrs: seq<Attribute>)
    ensures FirstHashKey(attrs).None? <==> forall i :: 0 <= i < |attrs| ==> !attrs[i].isHashKey
    ensures FirstHashKey(attrs).Some? ==>
      exists i :: 0 <= i < |attrs| && attrs[i].isHashKey && attrs[i].name == FirstHashKey(attrs).value
        && forall j :: 0 <= j < i ==> !attrs[j].isHashKey
  {
    if |attrs| > 0 && !attrs[0].isHashKey {
      FirstHashKeyIsFirst(attrs[1..]);
      if FirstHashKey(attrs[1..]).Some? {
        var i :| 0 <= i < |attrs[1..]| && attrs[1..][i].isHashKey && attrs[1..][i].name == FirstHashKey(attrs[1..]).value
          && forall j :: 0 <= j < i ==> !attrs[1..][j].isHashKey;
        assert attrs[i + 1] == attrs[1..][i];
        assert forall j :: 0 <= j < i + 1 ==> !attrs[j].isHashKey by {
          forall j | 0 <= j < i + 1 ensures !attrs[j].isHashKey {
            if j > 0 { assert attrs[j] == attrs[1..][j - 1]; }
          }
        }
      } else {
        forall i | 0 <= i < |attrs| ensures !attrs[i].isHashKey {
          if i > 0 { assert attrs[i] == attrs[1..][i - 1]; }
        }
      }
    } else if |attrs| > 0 {
      assert attrs[0].isHashKey && attrs[0].name == FirstHashKey(attrs).value;
    }
  }

  /**
   * The key attribute of a model: the first hash-key attribute, the name of
   * which `get_key_name` returns.
   */
  function KeyAttribute(m: ModelClass): Option<Attribute> {
    match FirstHashKey(m.attributes)
    case None => None
    case Some(n) => AttrByName(m.attributes, n)
  }

  /** A model's key is numeric when `getattr(model, key_name)` is a NumberAttribute. */
  predicate KeyIsNumber(m: ModelClass, keyName: string) {
    var a := AttrByName(m.attributes, keyName);
    a.Some? && a.value.kind == Number
  }
}
