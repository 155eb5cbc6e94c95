# graphene_pynamodb core, modelled in Dafny

graphene_pynamodb exposes PynamoDB record classes (models) as GraphQL types.
This project models and proves the layer's decision logic:

- **Relationship proxies** (`graphene_pynamodb/relationships.py`).
  - A `RelationshipResult` proxy holds the key of one related record. It
    fetches that record from storage the first time a public, non-key
    attribute is read.
  - A `RelationshipResultList` holds many keys. It resolves them with one
    batch read, in key order.
  - `OneToOne` and `OneToMany` are the foreign-key codecs. They write a
    related record's key into the stored item and read it back.
- **The attribute converter** (`graphene_pynamodb/converter.py`). It chooses
  the GraphQL field type, description and required flag for each PynamoDB
  attribute class.
- **The key registry and cursors** (`graphene_pynamodb/utils.py`).
  - `get_key_name` finds a model's hash key and memoises it in
    `MODEL_KEY_REGISTRY`.
  - `to_cursor` and `from_cursor` pack a record's key values into a
    `typeName:json` global id and unpack it again.
- **Field projection and type binding** (`graphene_pynamodb/types.py`).
  - Which attributes become fields, and in which order.
  - How a `PynamoObjectType` binds its `Meta` options.
  - How `is_type_of` treats records and proxies, and how `get_node` and
    `resolve_id` turn a record's key into a node id and back.

Modules, one per concern:

| module | file | content |
|---|---|---|
| `Wrappers` | wrappers.dfy | `Option` and `Result` |
| `Numerals` | numerals.dfy | Python's `str(int)` and `int(str)` |
| `Schema` | schema.dfy | values, attribute kinds, model classes, records and Python errors |
| `TextOrder` | text_order.dfy | Python's string order, plus sorted association lists for `OrderedDict(sorted(...))` |
| `Converter` | converter.dfy | the attribute converter of converter.py |
| `KeyRegistry` | key_registry.dfy | the `MODEL_KEY_REGISTRY` memo, as a class |
| `Storage` | storage.dfy | an abstract key-to-record store that counts `get` and `batch_get` calls |
| `Relationships` | relationships.dfy | relationships.py |
| `Cursor` | cursor.dfy | `to_cursor` and `from_cursor` |
| `Types` | types.dfy | types.py, plus the helpers it takes from utils.py |

Modelling choices:

- The code works by updating state in three places:
  - the proxy's wrapped object,
  - the key registry,
  - a `Relationship`'s lazily filled `_model` and `_hash_key_name`.

  Each of these is a class with `modifies` clauses. The loops of
  `get_key_name`, `to_cursor`, `get_model_fields`, `construct_fields` and
  `construct_self_referenced_fields` are methods with `while` loops. Each
  loop is proved equal to a specification function, and the properties are
  proved as lemmas about that function.
- Python semantics that matter for the properties are written out:
  - negative indexes and slice clamping,
  - a dict keeping the last value written under a key,
  - `sorted` on strings,
  - `int()` parsing,
  - the points where Python raises KeyError, TypeError, IndexError,
    ValueError or AttributeError.
- PynamoDB's type-tag constants are DynamoDB's short tags:
  `STRING = "S"`, `NUMBER = "N"`, `LIST = "L"`, `STRING_SET = "SS"` and
  `MAP = "M"`.

Where the prose and the code disagree, the model follows the code:

- `OneToMany.serialize` is described as writing a list of type-tagged maps.
  As written, it raises for every input (see "## Findings"). The error is
  TypeError, or AttributeError when the target lacks the key attribute.
- `utils.get_model_fields` reads `model._fields`. It is modelled over the
  same attribute list as the `get_model_fields` of types.py.

## Model

| member | source | states |
|---|---|---|
| `Numerals.ParseInt` | graphene_pynamodb/relationships.py:103 | `int(s)` accepts an optional sign followed by decimal digits and nothing else; the value of a plain digit string is its decimal value |
| `Numerals.ParseIntToString` | graphene_pynamodb/relationships.py:99-103 | `int(str(i)) == i` for every integer, so a numeric key survives being written as text |
| `Numerals.IntToStringInjective` | graphene_pynamodb/relationships.py:99 | distinct integer keys are written as distinct strings |
| `Schema.RecordAttr` | graphene_pynamodb/relationships.py:27 | `getattr(record, name)` gives the stored value, `None` for a declared attribute with no value, and AttributeError for an undeclared name |
| `Schema.PyStr` | graphene_pynamodb/relationships.py:99 | `str(v)` of a string is the string itself. For an integer it is decimal text that `int` reads back. It is `True`/`False` for booleans and `None` for `None`, and a dict's text is braced. |
| `Schema.DictGet` | graphene_pynamodb/relationships.py:122 | a dict lookup finds a value exactly when some item has that key, and the value found is the one of the first item with that key |
| `Schema.DictGetUnique` | graphene_pynamodb/relationships.py:122 | on a dict's items, which name each key once, the lookup gives `v` for `k` exactly when `(k, v)` is one of the items |
| `Schema.FirstHashKeyIsFirst` | graphene_pynamodb/utils.py:76-79 | the scan finds nothing exactly when no attribute is a hash key; otherwise it returns the name of the first hash-key attribute in declaration order |
| `Converter.ConvertAttribute` | graphene_pynamodb/converter.py:57-93 | an attribute class with no handler raises an error naming the attribute. The description is always the attribute name. Set kinds become lists of strings and are never required. Every other kind is required iff `null` is false; a missing `null` counts as true for the string kinds, and raises AttributeError for Number, Boolean and JSON. A Number attribute becomes ID iff it is the hash key. |
| `Converter.ConvertAgreesWithTable` | graphene_pynamodb/converter.py:63-93 | every converted type agrees with an independent table from attribute class to GraphQL type; a kind missing from the table never converts |
| `Converter.ConvertRelationship` | graphene_pynamodb/converter.py:7-9 | converting a relationship always raises |
| `Converter.ConvertComposite` | graphene_pynamodb/converter.py:28-40 | raises exactly when the registry has no converter for the composite class; otherwise returns that converter's result |
| `KeyRegistry.Registry.constructor` | graphene_pynamodb/utils.py:14 | the registry starts empty |
| `KeyRegistry.Memo` | graphene_pynamodb/utils.py:73-79 | the registry after `get_key_name(m)` keeps every earlier entry and gains no other model. It holds `m` when `m` is a Model with a hash key, and a newly added entry is `m`'s first hash key. |
| `KeyRegistry.Registry.GetKeyName` | graphene_pynamodb/utils.py:69-79 | the registry becomes `Memo` of the old one. TypeError for a non-Model class, with nothing changed. A cached name is returned without a scan. A miss scans once and returns the first hash key's name. The registry gains only that model's entry, and gains none when there is no hash key. Every entry stays equal to what a scan finds. |
| `KeyRegistry.KeyNameIdempotent` | graphene_pynamodb/utils.py:73-74 | two calls in a row return the same result, and once a hash key is found the second call does not scan |
| `Storage.Store.Get` | graphene_pynamodb/relationships.py:23 | `model.get(key)` counts one fetch and returns the stored record or raises DoesNotExist |
| `Storage.Store.BatchGet` | graphene_pynamodb/relationships.py:54 | `batch_get(keys)` counts one batch call and returns, in any order, exactly the stored records of the requested keys |
| `Relationships.LazyRef.Eq` | graphene_pynamodb/relationships.py:26-27 | `proxy == other` is true iff `other` is an instance of the target model and its key attribute equals the stored key; it raises iff `other` is an instance whose key attribute cannot be read |
| `Relationships.LazyRef.Ne` | graphene_pynamodb/relationships.py:29-30 | `!=` is defined exactly when `==` is, and is its negation |
| `Relationships.EqStoredRecord` | graphene_pynamodb/relationships.py:26-27 | a proxy equals the record stored under its key |
| `Relationships.RelationshipResult.constructor` | graphene_pynamodb/relationships.py:11-17 | a proxy over a Model class starts unresolved, holding its key, key name and model |
| `Relationships.RelationshipResult.New` | graphene_pynamodb/relationships.py:11-13 | building a proxy over a class that is not a Model raises TypeError; otherwise the proxy starts unresolved |
| `Relationships.RelationshipResult.GetAttr` | graphene_pynamodb/relationships.py:19-24 | the key attribute returns the stored key in every state without a fetch. A public non-key name read while unresolved makes exactly one `get`: a stored record resolves the proxy, and a missing one raises and leaves it unresolved. Private names and reads once resolved never fetch and change nothing. |
| `Relationships.ReadAttributes` | graphene_pynamodb/relationships.py:19-24 | over any sequence of reads, a proxy whose record is stored fetches at most once: once if it started unresolved and some read fetches, else never; a resolved proxy never fetches |
| `Relationships.SliceBound` | graphene_pynamodb/relationships.py:41-42 | a missing bound takes its default. A bound in `0..len` is kept, and a negative bound down to `-len` counts from the end. Above `len` it becomes `len`, and below `-len` it becomes 0. |
| `Relationships.ResultList.Slice` | graphene_pynamodb/relationships.py:41-42 | `lst[start:stop]` is a list proxy with the same key name and model. For any bounds it holds `keys[lo + k]` at position `k`, from the clamped start `lo` for `hi - lo` keys, empty when the clamped stop `hi` is not past `lo`. |
| `Relationships.ResultList.GetSlice` | graphene_pynamodb/relationships.py:46-47 | `__getslice__(i, j)` keeps key name and model. It is `lst[i:j]` for every pair of bounds. That is `keys[i..j]` for in-range `i <= j` and nothing when `0 <= j <= i`. A stop past the end, such as the `sys.maxsize` Python 2 passes for `lst[i:]`, gives `keys[i..]`. |
| `Relationships.ResultList.GetItem` | graphene_pynamodb/relationships.py:40-44 | `lst[i]` is a lazy proxy for `keys[i]` (negative from the end) with the list's key name and model; IndexError out of range |
| `Relationships.SliceGetItem` | graphene_pynamodb/relationships.py:40-44 | for any bounds, item `k` of a slice is the proxy `lst[lo + k]` of the original list, with `lo` the clamped start |
| `Relationships.ResultList.Iter` | graphene_pynamodb/relationships.py:49-51 | iteration yields one proxy per key, in key order, each with the list's key name and model. It raises TypeError iff there are keys and the model is not a Model. |
| `Relationships.IterMatchesGetItem` | graphene_pynamodb/relationships.py:49-51 | iteration yields, in order, one proxy per key, the same one indexing gives |
| `Relationships.ResultList.BatchIndexAt` | graphene_pynamodb/relationships.py:54 | the dict of a batch result holds a key iff some entity has it, and the entity under it is from the batch and has that key |
| `Relationships.ResultList.CollectSpec` | graphene_pynamodb/relationships.py:55 | `[models[key] for key in keys]` succeeds iff every key is in the dict and keeps the key order; otherwise it raises KeyError for the first missing key |
| `Relationships.ResultList.ResolveWithSpec` | graphene_pynamodb/relationships.py:53-55 | over any batch, in any order, resolving yields one record per key with `record[i]`'s key equal to `keys[i]`, or KeyError for the first key with no record |
| `Relationships.ResultList.IndexAgreesWithStore` | graphene_pynamodb/relationships.py:54 | over a batch answer, the dict holds exactly the stored records of the requested keys |
| `Relationships.ResultList.Resolve` | graphene_pynamodb/relationships.py:53-55 | `resolve` makes exactly one batch call, and succeeds iff every key is stored. Then the result has one element per key, and element `i` is the record stored under `keys[i]`. Otherwise it raises KeyError for the first key with no stored record. |
| `Relationships.DeserializeOneKey` | graphene_pynamodb/relationships.py:101-103 | `OneToOne.deserialize` parses the text with `int` when the key attribute is numeric and keeps it otherwise; it raises iff the key attribute is missing or the text is not an integer |
| `Relationships.SerializeOneKey` | graphene_pynamodb/relationships.py:99 | `str(getattr(model, key_name))` is the `str` of the record's value for the key: `"None"` when the attribute is declared but unset, and AttributeError when the record's class does not declare it |
| `Relationships.OneToOneRoundTrip` | graphene_pynamodb/relationships.py:98-103 | serialising a record whose key is set succeeds, and deserialising the text gives back the record's key |
| `Relationships.TaggedKeysSpec` | graphene_pynamodb/relationships.py:119-124 | decoding tagged maps succeeds iff every element decodes; it keeps the order, and the first failing element gives the error |
| `Relationships.DeserializeManyKeys` | graphene_pynamodb/relationships.py:118-127 | tagged maps decode the same whatever the target and key name are. An empty first map raises IndexError. A list not starting with a map is passed through when the target has the key attribute, and raises AttributeError otherwise. A decoded list has one key per element. |
| `Relationships.DeserializeManyPlain` | graphene_pynamodb/relationships.py:125-127 | a list that is not made of maps is passed through unchanged |
| `Relationships.DeserializeManyTagged` | graphene_pynamodb/relationships.py:118-124 | for tagged maps, element `i` is the value under the first element's tag, parsed with `int` for NUMBER |
| `Relationships.SerializeManyAsWritten` | graphene_pynamodb/relationships.py:114-116 | `OneToMany.serialize` as written always raises. It raises AttributeError when the target lacks the key attribute, and TypeError from `MAP[...]` otherwise. |
| `Relationships.TagKeysSpec` | graphene_pynamodb/relationships.py:116 | the comprehension succeeds iff every record's key attribute can be read. It keeps the record order, element `i` is `{tag: str(key of record i)}`, and a failure is AttributeError. |
| `Relationships.SerializeMany` | graphene_pynamodb/relationships.py:114-116 | the corrected serializer succeeds iff the target and every record have the key attribute, and raises AttributeError otherwise. It writes one map per record, in order: element `i` is `{type tag of the key attribute: str(key of record i)}`. |
| `Relationships.OneToManyRoundTrip` | graphene_pynamodb/relationships.py:114-124 | deserialising what the corrected serializer wrote gives back every record's key, in order |
| `Relationships.SerializeManyDiscrepancy` | graphene_pynamodb/relationships.py:115 | on a model with a numeric key and one record, the serializer as written raises while the corrected one writes `[{"N": "1"}]` |
| `Relationships.GetValue` | graphene_pynamodb/relationships.py:134-140 | a legacy map with a string-set payload yields that payload; any other map yields its list payload or KeyError; a value that is not a map raises TypeError |
| `Relationships.FindModel` | graphene_pynamodb/relationships.py:66-70 | the lookup by class name returns the first model with that name, and `None` iff there is none |
| `Relationships.Relationship.constructor` | graphene_pynamodb/relationships.py:72-79 | a relationship keeps its target (class or name), its laziness and no cached key name |
| `Relationships.Relationship.Create` | graphene_pynamodb/relationships.py:72-74 | declaring a relationship raises TypeError iff its target is a class that is not a Model |
| `Relationships.Relationship.Model` | graphene_pynamodb/relationships.py:87-92 | a target given by name is looked up once and replaced by the class found; a class target is kept |
| `Relationships.Relationship.HashKeyName` | graphene_pynamodb/relationships.py:81-85 | `_model` becomes the looked-up target. A non-empty cached key name is returned with the registry untouched. Otherwise `get_key_name(target)` decides: the registry becomes `Memo` of the old one, and the answer is kept and returned. A missing or non-Model target raises TypeError with the key name unchanged. |
| `Relationships.Relationship.KeyAndModel` | graphene_pynamodb/relationships.py:81-92 | the result is the old target's first hash key and the target (`KeyTarget`). It is TypeError when the target is missing, is not a Model, or has no hash key. `_model`, the cached key name and the registry end up as `hash_key_name` leaves them. |
| `Relationships.Relationship.SerializeOne` | graphene_pynamodb/relationships.py:98-99 | `OneToOne.serialize` is `SerializeOneKey` under the target's key name, or the target's TypeError; the state changes as in `KeyAndModel` |
| `Relationships.Relationship.DeserializeOne` | graphene_pynamodb/relationships.py:101-108 | on the target's key name and model, a key that decodes gives an unresolved proxy with no fetch when lazy. Otherwise it makes exactly one `get`, which gives the stored record or DoesNotExist. A target or decoding failure is returned with no fetch. |
| `Relationships.Relationship.SerializeManyKeys` | graphene_pynamodb/relationships.py:114-116 | `OneToMany.serialize` is the corrected serializer on the target's key name and model, or the target's TypeError |
| `Relationships.Relationship.DeserializeManyValue` | graphene_pynamodb/relationships.py:118-132 | tagged maps are decoded first. A decoding error is raised with `_model`, the key name and the registry untouched. When lazy, the list proxy is built from `hash_key_name` then `model`: the target's TypeError, or a proxy over the decoded keys with the key name `None` when the target has no hash key, and the state `hash_key_name` leaves. When not lazy, only `model` is read, the key name and registry are untouched, and a missing target raises AttributeError for `batch_get`. Any other list first needs the target's key name: that TypeError, then the plain keys. Every eager success makes exactly one batch call, whose records are exactly the stored records of the keys; nothing else fetches. |
| `TextOrder.LessIrreflexive` | graphene_pynamodb/types.py:40 | the string order used by `sorted` is irreflexive |
| `TextOrder.LessTransitive` | graphene_pynamodb/types.py:40 | and transitive |
| `TextOrder.LessTotal` | graphene_pynamodb/types.py:40 | and total on distinct strings |
| `TextOrder.InsertSpec` | graphene_pynamodb/types.py:39-40 | writing a name into a sorted dict keeps it sorted. The name gains the new value, and every other name keeps its own. |
| `Types.ModelFieldsSpec` | graphene_pynamodb/types.py:31-40 | `get_model_fields` is sorted by name with each name once; each name maps to its last declared attribute, unless excluded |
| `Types.ModelFieldsNames` | graphene_pynamodb/types.py:36-39 | its names are exactly the attribute names not in `excluding` |
| `Types.GetModelFields` | graphene_pynamodb/types.py:31-40 | the loop builds exactly that projection |
| `Types.GetModelFieldsOrAll` | graphene_pynamodb/utils.py:16-23 | the utils variant is the same projection, with `None` meaning nothing excluded |
| `Types.ConstructOk` | graphene_pynamodb/types.py:48-57 | `construct_fields` succeeds iff every selected attribute converts |
| `Types.ConstructSorted` | graphene_pynamodb/types.py:44-57 | its output is sorted by name and names only model fields |
| `Types.ConstructLookup` | graphene_pynamodb/types.py:49-57 | a name is in the output iff it is a model field that passes the filters, and its value is that attribute's conversion |
| `Types.ConstructNames` | graphene_pynamodb/types.py:49-55 | the output names are exactly the selected fields |
| `Types.ConstructFields` | graphene_pynamodb/types.py:43-59 | the loop skips names not in a non-empty `only_fields`, excluded names and names already created, converts the rest, and stops at the first conversion that raises |
| `Types.ConstructFieldsSpec` | graphene_pynamodb/types.py:43-59 | for any model it succeeds iff every selected attribute converts. The names are then sorted and unique. They are exactly the attributes in a non-empty `only_fields` and not in `exclude_fields`, and each value is the converter's result for that attribute. |
| `Types.SelfReferencedSpec` | graphene_pynamodb/types.py:20-28 | self-referenced fields keep exactly the entries whose conversion is truthy, with that conversion, in input order. There is one field per converting entry, and dict items with distinct names give fields with distinct names. |
| `Types.ConstructSelfReferenced` | graphene_pynamodb/types.py:20-28 | the loop builds exactly those fields |
| `Types.ConnectionFor` | graphene_pynamodb/utils.py:82-87 | a type's connection is a Connection named `<TypeName>Connection` |
| `Types.TotalCount` | graphene_pynamodb/utils.py:90-91 | `total_count` falls back to the number of edges when unset |
| `Types.IdField` | graphene_pynamodb/types.py:112 | the id field name is the one given when non-empty, and `'id'` otherwise |
| `Types.Bind` | graphene_pynamodb/types.py:74-112 | an invalid model (`is_valid_pynamo_model` false) fails with the model assertion, and a valid one with a non-Registry registry with the registry assertion. Binding succeeds iff the model is valid, the registry is a Registry, the fields convert and any given connection is a Connection. Then: the fields are `construct_fields`'s output; the registry defaults to the global one; with no connection given, one named `<Class>Connection` is made iff `use_connection`, or, when that is unset, some interface is a Node; the id name defaults to `'id'`. |
| `Types.BindFields` | graphene_pynamodb/types.py:90-93 | a bound type's fields are the selected attributes of its model, sorted by name |
| `Types.IsTypeOf` | graphene_pynamodb/types.py:120-123 | `is_type_of` takes a record iff it is an instance of the bound model. It takes an unresolved proxy iff its wrapped class is the bound model, and a resolved proxy iff its record is an instance. It rejects anything else. |
| `Types.ProxyIsTypeOf` | graphene_pynamodb/types.py:120-123 | a proxy over a model passes that model's `is_type_of`, both unresolved and after fetching its record |
| `Types.NodeKey` | graphene_pynamodb/types.py:126-130 | `get_node` converts the id with `int` when the key attribute is a NumberAttribute (ValueError when it is not an integer) and keeps it unchanged otherwise |
| `Types.GetNode` | graphene_pynamodb/types.py:125-130 | `get_node` fetches the record stored under the converted id, with one `get`, or raises. The registry becomes what `get_key_name` leaves (`Memo`). |
| `Types.IdOf` | graphene_pynamodb/types.py:135 | the id read is the record's value under the key name |
| `Types.ResolveId` | graphene_pynamodb/types.py:132-135 | `resolve_id` returns the record's key value iff the parent type is a Node, and `None` with nothing done otherwise. For a Node, the registry becomes what `get_key_name` leaves (`Memo`). |
| `Types.NodeIdRoundTrip` | graphene_pynamodb/types.py:126-135 | for a stored record, `get_node` applied to the text of the id from `resolve_id` looks up that record's key, for numeric and string keys |
| `Cursor.SerializeValue` | graphene_pynamodb/utils.py:100 | a key value is serialised under its attribute's type tag. It succeeds iff the value is a string of a string, binary or date-time attribute, or a number of a Number attribute. A string's text is the string, and a number's text reads back as the number with `int`. A `None` value raises, since key attributes are not nullable. |
| `Cursor.PutSpec` | graphene_pynamodb/utils.py:100 | `data[name] = v` keeps names unique, adds the name, and replaces only that name's item |
| `Cursor.KeyPayloadSpec` | graphene_pynamodb/utils.py:96-100 | the cursor payload holds exactly the hash-key and range-key attributes, once each, and each value is that attribute's serialised value |
| `Cursor.ToCursor` | graphene_pynamodb/utils.py:96-101 | the loop builds exactly that payload and packs it into the global id |
| `Cursor.LoadsDumps` | graphene_pynamodb/utils.py:101-106 | `json.loads(json.dumps(data)) == data` for cursor payloads |
| `Cursor.GlobalIdRoundTrip` | graphene_pynamodb/utils.py:101-105 | decoding a global id gives back its type name and data iff the type name has no colon |
| `Cursor.CursorRoundTrip` | graphene_pynamodb/utils.py:96-106 | `from_cursor(to_cursor(item))` is the item's class name and its key payload |

## Left out

- Storage I/O. `Model.get` and `Model.batch_get` are DynamoDB calls. They are modelled as a fixed key-to-record map (`Storage.Store`) that counts calls; the order of a batch answer is left unspecified. `save`, table creation and the example application are not modelled.
- base64 in global ids. `to_global_id` and `from_global_id` are modelled on the unencoded `typeName:data` text. Decoding base64 inverts encoding it, so the layer changes none of the properties.
- JSON. Only the shape a cursor payload has (an object of single-entry objects of strings) is written and parsed.
  - `json.dumps` escapes only `"`, `\`, newline, carriage return and tab here. The `\uXXXX` escapes for other control and non-ASCII characters are not written.
  - `json.loads` of any other JSON value reports a ValueError rather than returning that value.
- `Cursor.SerializeValue`: models `_serialize_value` for string, binary, date-time and number keys only. A date-time value is taken as its serialised text, and so is a binary value: the base64 encoding `BinaryAttribute.serialize` applies is not modelled. Other attribute kinds are reported as TypeError, because DynamoDB keys are strings, numbers or binary. `_serialize_value` belongs to PynamoDB and is not part of this model; a `None` value is taken to raise, on the assumption that hash and range keys are never nullable.
- The transparent-proxy mechanics of `wrapt.ObjectProxy`. A proxy is its `LazyRef` (key name, key, model) plus a `Wrapped` state. Reading an attribute while unresolved gives a `ClassMember` outcome, standing for the same lookup on the model class.
- `isinstance(other, model)` in `__eq__`. It is modelled on records; a proxy passed as `other` is not modelled. (`is_type_of` does take a proxy root; see `Types.IsTypeOf`.)
- `Relationship.sub_classes` and the class-level `_models` cache. The reflective subclass scan becomes an explicit list of model classes passed to `FindModel`.
- The graphene and graphql-relay machinery is not modelled: `yank_fields_from_attrs`, `Connection.create_type`, the `ObjectType` superclass init, `registry.register`, `skip_registry` and the singledispatch of `convert_pynamo_attribute`. `Types.Bind` states the decisions that code feeds into them. `is_node(graphene_type)` is a flag of the parent type.
- `Types.SelfReferenced`: the converter is a parameter. `construct_self_referenced_fields` passes the registry where the converter expects an attribute, so its result depends on code outside the model.
- `Converter.ConvertComposite`: the registry's composite converters are a map from class name to function. `_register_composite_class` (registration) is not modelled.
- The Mongoengine block `create_graphene_generic_class` (types.py:148-319) is not modelled: it is unreachable leftover code that calls `construct_fields` with the wrong arguments.
- `ast_to_dict` and `get_query_fields` are not modelled: they walk GraphQL AST objects and call `collect_query_fields`, which is never defined.
- Thread safety of `MODEL_KEY_REGISTRY` and of the class-level caches is not modelled; the model is sequential.
- An attribute's `attr_name` is taken to equal its Python name. `getattr(model, key_name)` and the registry's stored name therefore agree. Attribute names within a model are taken to be distinct, as a Python class cannot declare two attributes with one name. Only then do `AttrByName` (the first attribute with a name) and `ModelFields` (the last one declared) agree.
- `Numerals.ParseInt`: accepts an optional sign and ASCII digits. Python's `int()` also allows surrounding whitespace and `_` separators; those are not modelled.
- Python 2's `__getslice__` is modelled as a slice with both ends given, as passed to it. Python 2's own adjustment of negative indices before the call is not modelled. Slices with a step are not modelled.
- The `str` of a dict value quotes with `'` and does not escape quotes inside keys or values.
- `Relationships.Relationship.DeserializeManyValue`: the list proxy with key name `None` (`LazyManyUnkeyed`) is a result only. Indexing, iterating or resolving it is not modelled, because `ResultList` holds a string key name.
- `Types.ResolveId`: the `getattr(self, key_name)` is modelled on a record. A `RelationshipResult` root, whose `__getattr__` answers the key name without a fetch, is not modelled here.
- In `OneToMany.deserialize`, the branch for NumberAttribute keys on plain lists copies the list unchanged. It is modelled as the pass-through it is.

## Findings

| source | as written | input that shows it | evidently intended | confidence | as-written member | corrected member |
|---|---|---|---|---|---|---|
| graphene_pynamodb/relationships.py:115 | `key_type = MAP[getattr(self.model, self.hash_key_name).attr_type]` indexes the string constant `MAP` (`"M"`) with the key attribute's type tag | `OneToMany(Reporter).serialize([reporter])` for a model `Reporter` with a NumberAttribute hash key `id` and a record `id=1`: `"M"["N"]` raises TypeError | the key attribute's own type tag, giving `[{"N": "1"}]`, the shape `deserialize` reads back | high (not executed) | `Relationships.SerializeManyAsWritten`, `Relationships.SerializeManyDiscrepancy` | `Relationships.SerializeMany`, `Relationships.OneToManyRoundTrip` |
