/**
 * The schema projection of graphene_pynamodb/types.py and the small helpers
 * of graphene_pynamodb/utils.py it relies on: which attributes of a model
 * become GraphQL fields and in which order, how a type binds its options,
 * and how it recognises, fetches and identifies its records.
 */
module Types {
  import opened Wrappers
  import opened Schema
  import opened TextOrder
  import Numerals
  import Converter
  import Relationships
  import KeyRegistry
  import Storage

  // ---------------------------------------------------------------------------
  // get_model_fields

  /** The attribute declared last under `name`: the one a dict built in declaration order keeps. */
  function LastByName(attrs: seq<Attribute>, name: string): Option<Attribute>
    decreases |attrs|
  {
    if |attrs| == 0 then None
    else if attrs[|attrs| - 1].name == name then Some(attrs[|attrs| - 1])
    else LastByName(attrs[..|attrs| - 1], name)
  }

  lemma {:induction false} LastByNameSpec(attrs: seq<Attribute>, name: string)
    ensures LastByName(attrs, name).None? <==> forall i :: 0 <= i < |attrs| ==> attrs[i].name != name
    ensures LastByName(attrs, name).Some? ==> LastByName(attrs, name).value in attrs && LastByName(attrs, name).value.name == name
    decreases |attrs|
  {
    if |attrs| > 0 {
      var init := attrs[..|attrs| - 1];
      LastByNameSpec(init, name);
      assert forall i :: 0 <= i < |init| ==> init[i] == attrs[i];
    }
  }

  /**
   * `get_model_fields(model, excluding)`: every attribute whose name is not
   * excluded, entered into a dict in declaration order, then sorted by name.
   */
  function ModelFields(attrs: seq<Attribute>, excluding: seq<string>): seq<(string, Attribute)>
    decreases |attrs|
  {
    if |attrs| == 0 then []
    else
      var a := attrs[|attrs| - 1];
      var p := ModelFields(attrs[..|attrs| - 1], excluding);
      if a.name in excluding then p else Insert(p, a.name, a)
  }

  /**
   * The fields are sorted by name with no name twice, and the field under a
   * name is the last attribute declared with it, unless the name is excluded.
   */
  lemma {:induction false} ModelFieldsSpec(attrs: seq<Attribute>, excluding: seq<string>)
    ensures StrictlySorted(ModelFields(attrs, excluding))
    ensures forall k :: Lookup(ModelFields(attrs, excluding), k) == (if k in excluding then None else LastByName(attrs, k))
    decreases |attrs|
  {
    if |attrs| > 0 {
      var a := attrs[|attrs| - 1];
      var init := attrs[..|attrs| - 1];
      ModelFieldsSpec(init, excluding);
      if a.name !in excluding {
        InsertSpec(ModelFields(init, excluding), a.name, a);
      }
    }
  }

  /** The field names are exactly the attribute names not excluded. */
  lemma ModelFieldsNames(attrs: seq<Attribute>, excluding: seq<string>)
    ensures KeySet(ModelFields(attrs, excluding)) == set a | a in attrs && a.name !in excluding :: a.name
  {
    var r := ModelFields(attrs, excluding);
    ModelFieldsSpec(attrs, excluding);
    forall k ensures k in KeySet(r) <==> k in set a | a in attrs && a.name !in excluding :: a.name {
      LookupAbsent(r, k);
      LastByNameSpec(attrs, k);
      if k !in excluding && LastByName(attrs, k).Some? {
        assert LastByName(attrs, k).value in attrs;
      }
      if k in set a | a in attrs && a.name !in excluding :: a.name {
        var a :| a in attrs && a.name !in excluding && a.name == k;
        var i :| 0 <= i < |attrs| && attrs[i] == a;
      }
    }
  }

  /** `get_model_fields` (types.py): the dict built attribute by attribute, then sorted. */
  method GetModelFields(m: ModelClass, excluding: seq<string>) returns (r: seq<(string, Attribute)>)
    ensures r == ModelFields(m.attributes, excluding)
  {
    var attrs := m.attributes;
    r := [];
    var i := 0;
    while i < |attrs|
      invariant 0 <= i <= |attrs|
      invariant r == ModelFields(attrs[..i], excluding)
    {
      assert attrs[..i + 1][..i] == attrs[..i];
      if attrs[i].name !in excluding {
        r := Insert(r, attrs[i].name, attrs[i]);
      }
      i := i + 1;
    }
    assert attrs[..i] == attrs;
  }

  /** `get_model_fields` (utils.py): the same projection, with `excluding or []`. */
  method GetModelFieldsOrAll(m: ModelClass, excluding: Option<seq<string>>) returns (r: seq<(string, Attribute)>)
    ensures r == ModelFields(m.attributes, if excluding.Some? then excluding.value else [])
  {
    r := GetModelFields(m, if excluding.Some? then excluding.value else []);
  }

  // ---------------------------------------------------------------------------
  // construct_fields

  /** A name survives the filters: it is in `only` when `only` is non-empty, and it is not excluded. */
  predicate Selected(name: string, only: seq<string>, exclude: seq<string>) {
    !(|only| > 0 && name !in only) && name !in exclude
  }

  /**
   * `construct_fields` over the sorted fields: each selected name not already
   * created is converted and added; the first conversion that raises ends it.
   */
  function Construct(items: seq<(string, Attribute)>, only: seq<string>, exclude: seq<string>)
    : Result<seq<(string, Converter.FieldDescriptor)>, Error>
    decreases |items|
  {
    if |items| == 0 then Ok([])
    else
      match Construct(items[..|items| - 1], only, exclude)
      case Err(e) => Err(e)
      case Ok(fs) =>
        var (name, a) := items[|items| - 1];
        if !Selected(name, only, exclude) || name in KeySet(fs) then Ok(fs)
        else match Converter.ConvertAttribute(a)
          case Err(e) => Err(e)
          case Ok(f) => Ok(fs + [(name, f)])
  }

  lemma LookupAppend<V>(s: seq<(string, V)>, x: (string, V), k: string)
    ensures Lookup(s + [x], k) == if Lookup(s, k).Some? then Lookup(s, k) else if x.0 == k then Some(x.1) else None
    decreases |s|
  {
    if |s| > 0 {
      assert (s + [x])[1..] == s[1..] + [x];
      LookupAppend(s[1..], x, k);
    }
  }

  lemma SortedPrefix<V>(s: seq<(string, V)>)
    requires StrictlySorted(s) && |s| > 0
    ensures StrictlySorted(s[..|s| - 1])
    ensures forall i :: 0 <= i < |s| - 1 ==> Less(s[i].0, s[|s| - 1].0)
  {
  }

  /** `construct_fields` over sorted fields succeeds exactly when every selected attribute converts. */
  lemma {:induction false} ConstructOk(items: seq<(string, Attribute)>, only: seq<string>, exclude: seq<string>)
    requires StrictlySorted(items)
    ensures Construct(items, only, exclude).Ok? <==>
      forall i :: 0 <= i < |items| && Selected(items[i].0, only, exclude) ==> Converter.ConvertAttribute(items[i].1).Ok?
    decreases |items|
  {
    if |items| > 0 {
      var init := items[..|items| - 1];
      SortedPrefix(items);
      ConstructOk(init, only, exclude);
      assert forall i :: 0 <= i < |init| ==> init[i] == items[i];
      if Construct(init, only, exclude).Ok? {
        ConstructSorted(init, only, exclude);
        NotInSortedPrefix(items);
      }
    }
  }

  /** The last name of sorted fields does not occur before it. */
  lemma NotInSortedPrefix<V>(items: seq<(string, V)>)
    requires StrictlySorted(items) && |items| > 0
    ensures items[|items| - 1].0 !in KeySet(items[..|items| - 1])
  {
    var init := items[..|items| - 1];
    if items[|items| - 1].0 in KeySet(init) {
      var i :| 0 <= i < |init| && init[i].0 == items[|items| - 1].0;
      assert Less(items[i].0, items[|items| - 1].0);
      LessIrreflexive(items[i].0);
    }
  }

  /** The output of `construct_fields` is sorted and names only fields it was given. */
  lemma {:induction false} ConstructSorted(items: seq<(string, Attribute)>, only: seq<string>, exclude: seq<string>)
    requires StrictlySorted(items)
    requires Construct(items, only, exclude).Ok?
    ensures StrictlySorted(Construct(items, only, exclude).value)
    ensures KeySet(Construct(items, only, exclude).value) <= KeySet(items)
    decreases |items|
  {
    if |items| > 0 {
      var init := items[..|items| - 1];
      var last := items[|items| - 1];
      SortedPrefix(items);
      ConstructSorted(init, only, exclude);
      var fs := Construct(init, only, exclude).value;
      assert KeySet(init) <= KeySet(items) by {
        forall n | n in KeySet(init) ensures n in KeySet(items) {
          var i :| 0 <= i < |init| && init[i].0 == n;
          assert items[i] == init[i];
        }
      }
      var r := Construct(items, only, exclude).value;
      if r != fs {
        var f := Converter.ConvertAttribute(last.1).value;
        assert r == fs + [(last.0, f)];
        forall i, j | 0 <= i < j < |r| ensures Less(r[i].0, r[j].0) {
          if j == |fs| {
            assert r[i] == fs[i];
            assert fs[i].0 in KeySet(fs);
            var i' :| 0 <= i' < |init| && init[i'].0 == r[i].0;
          } else {
            assert r[i] == fs[i] && r[j] == fs[j];
          }
        }
        forall n | n in KeySet(r) ensures n in KeySet(items) {
          var i :| 0 <= i < |r| && r[i].0 == n;
          if i < |fs| { assert r[i] == fs[i]; assert fs[i].0 in KeySet(fs); }
        }
      }
    }
  }

  /**
   * Each name is in the output of `construct_fields` exactly when it is a
   * selected field, and its value is the conversion of that field's attribute.
   */
  lemma {:induction false} ConstructLookup(items: seq<(string, Attribute)>, only: seq<string>, exclude: seq<string>, k: string)
    requires StrictlySorted(items)
    requires Construct(items, only, exclude).Ok?
    ensures Lookup(Construct(items, only, exclude).value, k).Some? <==> Lookup(items, k).Some? && Selected(k, only, exclude)
    ensures Lookup(Construct(items, only, exclude).value, k).Some? ==>
      Converter.ConvertAttribute(Lookup(items, k).value) == Ok(Lookup(Construct(items, only, exclude).value, k).value)
    decreases |items|
  {
    if |items| > 0 {
      var init := items[..|items| - 1];
      var last := items[|items| - 1];
      SortedPrefix(items);
      ConstructLookup(init, only, exclude, k);
      ConstructSorted(init, only, exclude);
      NotInSortedPrefix(items);
      assert items == init + [last];
      LookupAppend(init, last, k);
      var fs := Construct(init, only, exclude).value;
      LookupAbsent(init, k);
      LookupAbsent(fs, k);
      var r := Construct(items, only, exclude).value;
      if r != fs {
        LookupAppend(fs, r[|r| - 1], k);
        assert r == fs + [r[|r| - 1]];
      }
    }
  }

  /** The output names are exactly the selected fields. */
  lemma ConstructNames(items: seq<(string, Attribute)>, only: seq<string>, exclude: seq<string>)
    requires StrictlySorted(items)
    requires Construct(items, only, exclude).Ok?
    ensures KeySet(Construct(items, only, exclude).value) == set k | k in KeySet(items) && Selected(k, only, exclude)
  {
    var r := Construct(items, only, exclude).value;
    forall k ensures k in KeySet(r) <==> k in KeySet(items) && Selected(k, only, exclude) {
      ConstructLookup(items, only, exclude, k);
      LookupAbsent(r, k);
      LookupAbsent(items, k);
    }
  }

  /** In a sorted list every entry is what `Lookup` finds under its name. */
  lemma {:induction false} LookupAt<V>(s: seq<(string, V)>, i: nat)
    requires StrictlySorted(s) && i < |s|
    ensures Lookup(s, s[i].0) == Some(s[i].1)
    decreases i
  {
    if i > 0 {
      SortedTail(s);
      assert s[0].0 != s[i].0 by { assert Less(s[0].0, s[i].0); LessIrreflexive(s[0].0); }
      assert s[1..][i - 1] == s[i];
      LookupAt(s[1..], i - 1);
    }
  }

  /** Once a prefix of the fields raises, `construct_fields` raises the same error. */
  lemma {:induction false} ConstructPrefixErr(items: seq<(string, Attribute)>, only: seq<string>, exclude: seq<string>, n: nat)
    requires n <= |items|
    requires Construct(items[..n], only, exclude).Err?
    ensures Construct(items, only, exclude) == Construct(items[..n], only, exclude)
    decreases |items| - n
  {
    if n < |items| {
      assert items[..n + 1][..n] == items[..n];
      ConstructPrefixErr(items, only, exclude, n + 1);
    } else {
      assert items[..n] == items;
    }
  }

  /**
   * `construct_fields(model, registry, only_fields, exclude_fields)`: walk
   * the sorted model fields, skip a name not in a non-empty `only_fields`,
   * an excluded one or one already created, and convert the rest.
   */
  method ConstructFields(m: ModelClass, only: seq<string>, exclude: seq<string>)
    returns (r: Result<seq<(string, Converter.FieldDescriptor)>, Error>)
    ensures r == Construct(ModelFields(m.attributes, []), only, exclude)
  {
    var items := GetModelFields(m, []);
    var fields: seq<(string, Converter.FieldDescriptor)> := [];
    var i := 0;
    while i < |items|
      invariant 0 <= i <= |items|
      invariant Construct(items[..i], only, exclude) == Ok(fields)
    {
      assert items[..i + 1][..i] == items[..i];
      var (name, attribute) := items[i];
      var isNotInOnly := |only| > 0 && name !in only;
      var isAlreadyCreated := name in KeySet(fields);
      var isExcluded := name in exclude || isAlreadyCreated;
      if !(isNotInOnly || isExcluded) {
        var converted := Converter.ConvertAttribute(attribute);
        if converted.Err? {
          ConstructPrefixErr(items, only, exclude, i + 1);
          return Err(converted.error);
        }
        fields := fields + [(name, converted.value)];
      }
      i := i + 1;
    }
    assert items[..i] == items;
    r := Ok(fields);
  }

  /**
   * What `construct_fields` yields for a model: it succeeds exactly when
   * every selected attribute converts; then its names are sorted, are
   * exactly the model's attributes in a non-empty `only_fields` and not in
   * `exclude_fields`, and each value is the conversion of that attribute.
   */
  lemma ConstructFieldsSpec(m: ModelClass, only: seq<string>, exclude: seq<string>)
    ensures Construct(ModelFields(m.attributes, []), only, exclude).Ok? <==>
      forall k :: LastByName(m.attributes, k).Some? && Selected(k, only, exclude) ==>
        Converter.ConvertAttribute(LastByName(m.attributes, k).value).Ok?
    ensures Construct(ModelFields(m.attributes, []), only, exclude).Ok? ==>
      var r := Construct(ModelFields(m.attributes, []), only, exclude).value;
      StrictlySorted(r)
      && KeySet(r) == (set a | a in m.attributes && Selected(a.name, only, exclude) :: a.name)
      && (forall k :: Lookup(r, k).Some? ==>
            LastByName(m.attributes, k).Some? && Converter.ConvertAttribute(LastByName(m.attributes, k).value) == Ok(Lookup(r, k).value))
  {
    var items := ModelFields(m.attributes, []);
    ModelFieldsSpec(m.attributes, []);
    ModelFieldsNames(m.attributes, []);
    ConstructOk(items, only, exclude);
    forall i | 0 <= i < |items| ensures LastByName(m.attributes, items[i].0) == Some(items[i].1) {
      LookupAt(items, i);
    }
    forall k | LastByName(m.attributes, k).Some? ensures exists i :: 0 <= i < |items| && items[i].0 == k {
      LookupAbsent(items, k);
    }
    if Construct(items, only, exclude).Ok? {
      var r := Construct(items, only, exclude).value;
      ConstructSorted(items, only, exclude);
      ConstructNames(items, only, exclude);
      forall k | Lookup(r, k).Some?
        ensures LastByName(m.attributes, k).Some? && Converter.ConvertAttribute(LastByName(m.attributes, k).value) == Ok(Lookup(r, k).value)
      {
        ConstructLookup(items, only, exclude, k);
      }
    }
  }

  // ---------------------------------------------------------------------------
  // construct_self_referenced_fields

  /** The self-referenced fields (a dict's items) whose conversion is truthy, in their order. */
  function SelfReferenced<A>(entries: seq<(string, A)>, convert: A -> Option<Converter.FieldDescriptor>)
    : seq<(string, Converter.FieldDescriptor)>
    decreases |entries|
  {
    if |entries| == 0 then []
    else
      var fs := SelfReferenced(entries[..|entries| - 1], convert);
      var (name, field) := entries[|entries| - 1];
      match convert(field)
      case None => fs
      case Some(f) => fs + [(name, f)]
  }

  /** The positions of the entries whose conversion is truthy. */
  function Converting<A>(entries: seq<(string, A)>, convert: A -> Option<Converter.FieldDescriptor>): set<int> {
    set j | 0 <= j < |entries| && convert(entries[j].1).Some?
  }

  /**
   * Every kept entry comes from an input entry with that conversion, every
   * input entry that converts is kept, and the result for a prefix of the
   * input is a prefix of the result: the input order is kept. There is one
   * field per converting entry, and the items of a dict (distinct names)
   * give fields with distinct names, as an OrderedDict holds them.
   */
  lemma {:induction false} SelfReferencedSpec<A>(entries: seq<(string, A)>, convert: A -> Option<Converter.FieldDescriptor>, n: nat)
    requires n <= |entries|
    ensures forall e :: e in SelfReferenced(entries, convert) ==>
      exists j :: 0 <= j < |entries| && entries[j].0 == e.0 && convert(entries[j].1) == Some(e.1)
    ensures forall j :: 0 <= j < |entries| && convert(entries[j].1).Some? ==>
      (entries[j].0, convert(entries[j].1).value) in SelfReferenced(entries, convert)
    ensures SelfReferenced(entries[..n], convert) <= SelfReferenced(entries, convert)
    ensures |SelfReferenced(entries, convert)| == |Converting(entries, convert)|
    ensures UniqueKeys(entries) ==> UniqueKeys(SelfReferenced(entries, convert))
    decreases |entries|
  {
    SelfReferencedCount(entries, convert);
    if UniqueKeys(entries) {
      SelfReferencedUnique(entries, convert);
    }
    SelfReferencedOrigin(entries, convert, n);
  }

  lemma {:induction false} SelfReferencedOrigin<A>(entries: seq<(string, A)>, convert: A -> Option<Converter.FieldDescriptor>, n: nat)
    requires n <= |entries|
    ensures forall e :: e in SelfReferenced(entries, convert) ==>
      exists j :: 0 <= j < |entries| && entries[j].0 == e.0 && convert(entries[j].1) == Some(e.1)
    ensures forall j :: 0 <= j < |entries| && convert(entries[j].1).Some? ==>
      (entries[j].0, convert(entries[j].1).value) in SelfReferenced(entries, convert)
    ensures SelfReferenced(entries[..n], convert) <= SelfReferenced(entries, convert)
    decreases |entries|
  {
    if |entries| > 0 {
      var init := entries[..|entries| - 1];
      if n < |entries| {
        assert entries[..n] == init[..n];
        SelfReferencedOrigin(init, convert, n);
      } else {
        assert entries[..n] == entries;
        SelfReferencedOrigin(init, convert, 0);
      }
      assert forall j :: 0 <= j < |init| ==> init[j] == entries[j];
    }
  }

  lemma {:induction false} SelfReferencedCount<A>(entries: seq<(string, A)>, convert: A -> Option<Converter.FieldDescriptor>)
    ensures |SelfReferenced(entries, convert)| == |Converting(entries, convert)|
    decreases |entries|
  {
    if |entries| > 0 {
      var init := entries[..|entries| - 1];
      var last := |entries| - 1;
      SelfReferencedCount(init, convert);
      assert forall j :: 0 <= j < |init| ==> init[j] == entries[j];
      assert last !in Converting(init, convert);
      if convert(entries[last].1).Some? {
        assert Converting(entries, convert) == Converting(init, convert) + {last};
      } else {
        assert Converting(entries, convert) == Converting(init, convert);
      }
    } else {
      assert Converting(entries, convert) == {};
    }
  }

  lemma {:induction false} SelfReferencedUnique<A>(entries: seq<(string, A)>, convert: A -> Option<Converter.FieldDescriptor>)
    requires UniqueKeys(entries)
    ensures UniqueKeys(SelfReferenced(entries, convert))
    decreases |entries|
  {
    if |entries| > 0 {
      var init := entries[..|entries| - 1];
      var last := |entries| - 1;
      assert forall j :: 0 <= j < |init| ==> init[j] == entries[j];
      SelfReferencedUnique(init, convert);
      SelfReferencedOrigin(init, convert, 0);
      var fs := SelfReferenced(init, convert);
      forall e | e in fs ensures e.0 != entries[last].0 {
        var j :| 0 <= j < |init| && init[j].0 == e.0 && convert(init[j].1) == Some(e.1);
        assert entries[j].0 != entries[last].0;
      }
    }
  }

  /** `construct_self_referenced_fields(self_referenced, registry)`. */
  method ConstructSelfReferenced<A>(entries: seq<(string, A)>, convert: A -> Option<Converter.FieldDescriptor>)
    returns (fields: seq<(string, Converter.FieldDescriptor)>)
    ensures fields == SelfReferenced(entries, convert)
  {
    fields := [];
    var i := 0;
    while i < |entries|
      invariant 0 <= i <= |entries|
      invariant fields == SelfReferenced(entries[..i], convert)
    {
      assert entries[..i + 1][..i] == entries[..i];
      var (name, field) := entries[i];
      var converted := convert(field);
      if converted.Some? {
        fields := fields + [(name, converted.value)];
      }
      i := i + 1;
    }
    assert entries[..i] == entries;
  }

  // ---------------------------------------------------------------------------
  // utils helpers

  /** `is_valid_pynamo_model(model)`: a class given, and a subclass of `Model`. */
  predicate IsValidPynamoModel(model: Option<ModelClass>) {
    model.Some? && model.value.isModel
  }

  /** A connection class: its GraphQL name, and whether it subclasses graphene's `Connection`. */
  datatype ConnectionClass = ConnectionClass(name: string, isConnection: bool)

  /** The connection made for a type: named `<TypeName>Connection`. */
  function ConnectionFor(typeName: string): (c: ConnectionClass)
    ensures c.isConnection && |c.name| == |typeName| + 10
    ensures c.name[..|typeName|] == typeName && c.name[|typeName|..] == "Connection"
  {
    ConnectionClass(typeName + "Connection", true)
  }

  /** `resolve_total_count`: the stored `total_count` when there is one, else the number of edges. */
  function TotalCount<E>(totalCount: Option<int>, edges: seq<E>): (r: int)
    ensures totalCount.None? ==> r == |edges|
    ensures totalCount.Some? ==> r == totalCount.value
  {
    match totalCount
    case None => |edges|
    case Some(n) => n
  }

  // ---------------------------------------------------------------------------
  // PynamoObjectType.__init_subclass_with_meta__

  datatype Interface = Interface(name: string, isNode: bool)

  /** The registry passed in `Meta`: whether it is an instance of graphene_pynamodb's `Registry`. */
  datatype RegistryRef = RegistryRef(name: string, isRegistry: bool)

  const GlobalRegistry: RegistryRef := RegistryRef("global", true)

  /** The options a `Meta` class gives; `None` is an option left out. */
  datatype Meta = Meta(
    model: Option<ModelClass>,
    registry: Option<RegistryRef>,
    onlyFields: seq<string>,
    excludeFields: seq<string>,
    connection: Option<ConnectionClass>,
    useConnection: Option<bool>,
    interfaces: seq<Interface>,
    id: Option<string>)

  /** `_meta` as the type ends up with it. */
  datatype Options = Options(
    model: ModelClass,
    registry: RegistryRef,
    fields: seq<(string, Converter.FieldDescriptor)>,
    connection: Option<ConnectionClass>,
    id: string)

  /** `use_connection`, or when unset, whether some interface is a Node. */
  predicate UsesConnection(useConnection: Option<bool>, interfaces: seq<Interface>) {
    match useConnection
    case Some(b) => b
    case None => exists i :: 0 <= i < |interfaces| && interfaces[i].isNode
  }

  /** `id or 'id'`. */
  function IdField(id: Option<string>): (r: string)
    ensures r != ""
    ensures id.Some? && id.value != "" ==> r == id.value
    ensures id.None? || id.value == "" ==> r == "id"
  {
    if id.Some? && id.value != "" then id.value else "id"
  }

  /** The first assertion's failure: no valid model was given. */
  function ModelAssertion(cls: string): Error {
    AssertionError("You need to pass a valid PynamoDB Model in " + cls + ".Meta")
  }

  /** The second assertion's failure: the registry given is not a `Registry`. */
  function RegistryAssertion(cls: string): Error {
    AssertionError("The attribute registry in " + cls + " needs to be an instance of Registry")
  }

  /** The third assertion's failure: the connection is not a `Connection`. */
  function ConnectionAssertion(name: string): Error {
    AssertionError("The connection must be a Connection. Received " + name)
  }

  /**
   * The options `__init_subclass_with_meta__` binds for the type `cls`:
   * assertions on the model, the registry and the connection, the
   * converted fields, an automatic connection, and the default id name.
   */
  function Bind(cls: string, meta: Meta): (r: Result<Options, Error>)
    ensures r.Ok? <==>
      IsValidPynamoModel(meta.model)
      && (meta.registry.Some? ==> meta.registry.value.isRegistry)
      && Construct(ModelFields(meta.model.value.attributes, []), meta.onlyFields, meta.excludeFields).Ok?
      && (meta.connection.Some? ==> meta.connection.value.isConnection)
    ensures !IsValidPynamoModel(meta.model) ==> r == Err(ModelAssertion(cls))
    ensures IsValidPynamoModel(meta.model) && meta.registry.Some? && !meta.registry.value.isRegistry ==>
      r == Err(RegistryAssertion(cls))
    ensures r.Ok? ==> r.value.model == meta.model.value
    ensures r.Ok? ==> r.value.registry == (if meta.registry.Some? then meta.registry.value else GlobalRegistry)
    ensures r.Ok? ==> r.value.fields == Construct(ModelFields(r.value.model.attributes, []), meta.onlyFields, meta.excludeFields).value
    ensures r.Ok? && meta.connection.Some? ==> r.value.connection == meta.connection
    ensures r.Ok? && meta.connection.None? ==>
      r.value.connection == (if UsesConnection(meta.useConnection, meta.interfaces) then Some(ConnectionFor(cls)) else None)
    ensures r.Ok? ==> r.value.id == IdField(meta.id)
  {
    if !IsValidPynamoModel(meta.model) then
      Err(ModelAssertion(cls))
    else
      var model := meta.model.value;
      var registry := if meta.registry.None? then GlobalRegistry else meta.registry.value;
      if !registry.isRegistry then Err(RegistryAssertion(cls))
      else match Construct(ModelFields(model.attributes, []), meta.onlyFields, meta.excludeFields)
        case Err(e) => Err(e)
        case Ok(fields) =>
          var connection :=
            if UsesConnection(meta.useConnection, meta.interfaces) && meta.connection.None? then Some(ConnectionFor(cls))
            else meta.connection;
          if connection.Some? && !connection.value.isConnection then
            Err(ConnectionAssertion(connection.value.name))
          else Ok(Options(model, registry, fields, connection, IdField(meta.id)))
  }

  /** A bound type's fields are the selected attributes of its model, sorted by name. */
  lemma BindFields(cls: string, meta: Meta)
    requires Bind(cls, meta).Ok?
    ensures StrictlySorted(Bind(cls, meta).value.fields)
    ensures KeySet(Bind(cls, meta).value.fields) ==
      set a | a in meta.model.value.attributes && Selected(a.name, meta.onlyFields, meta.excludeFields) :: a.name
  {
    ConstructFieldsSpec(meta.model.value, meta.onlyFields, meta.excludeFields);
  }

  // ---------------------------------------------------------------------------
  // is_type_of, get_node, resolve_id

  /** What GraphQL hands `is_type_of`: a relationship proxy (its state), a record, or anything else. */
  datatype Root =
    | ProxyRoot(ref: Relationships.LazyRef, wrapped: Relationships.Wrapped)
    | RecordRoot(record: Record)
    | OtherRoot

  /** The root a proxy object presents. */
  function RootOf(p: Relationships.RelationshipResult): (r: Root)
    reads p
    ensures r.ProxyRoot? && r.ref == p.ref && r.wrapped == p.wrapped
  {
    ProxyRoot(p.ref, p.wrapped)
  }

  /**
   * `is_type_of(root)` for the type bound to `bound`: an unresolved proxy
   * whose wrapped class is `bound`, or anything that is an instance of
   * `bound` (a record, or a proxy standing in for a fetched record).
   */
  function IsTypeOf(bound: ModelClass, root: Root): (r: bool)
    ensures root.OtherRoot? ==> !r
    ensures root.RecordRoot? ==> (r <==> IsInstance(root.record, bound))
    ensures root.ProxyRoot? && root.wrapped.Unresolved? ==> (r <==> root.ref.model == bound)
    ensures root.ProxyRoot? && root.wrapped.Resolved? ==> (r <==> IsInstance(root.wrapped.record, bound))
  {
    match root
    case ProxyRoot(ref, w) =>
      (w.Unresolved? && ref.model == bound) || (w.Resolved? && IsInstance(w.record, bound))
    case RecordRoot(rec) => IsInstance(rec, bound)
    case OtherRoot => false
  }

  /** A proxy over a model is that model's type before and after it fetches its record. */
  lemma ProxyIsTypeOf(ref: Relationships.LazyRef, store: Storage.Store)
    requires store.Valid()
    ensures IsTypeOf(ref.model, ProxyRoot(ref, Relationships.Unresolved))
    ensures store.Stored(ref.model, ref.key).Some? ==>
      IsTypeOf(ref.model, ProxyRoot(ref, Relationships.Resolved(store.Stored(ref.model, ref.key).value)))
  {
  }

  /**
   * The key `get_node` looks up for the id: `int(id)` when the key
   * attribute is a NumberAttribute, the id itself otherwise. `getattr` with
   * no key name is a TypeError and with an unknown one an AttributeError.
   */
  function NodeKey(m: ModelClass, keyName: Option<string>, id: string): (r: Result<Value, Error>)
    ensures keyName.None? ==> r.Err?
    ensures keyName.Some? && KeyIsNumber(m, keyName.value) ==>
      (r.Ok? <==> Numerals.ParseInt(id).Some?) && (r.Ok? ==> r.value == VNum(Numerals.ParseInt(id).value))
    ensures keyName.Some? && AttrByName(m.attributes, keyName.value).Some? && !KeyIsNumber(m, keyName.value) ==>
      r == Ok(VStr(id))
  {
    match keyName
    case None => Err(TypeError("attribute name must be string"))
    case Some(k) =>
      if AttrByName(m.attributes, k).None? then Err(AttributeError(k))
      else if KeyIsNumber(m, k) then
        match Numerals.ParseInt(id)
        case None => Err(ValueError(id))
        case Some(n) => Ok(VNum(n))
      else Ok(VStr(id))
  }

  /** `get_node(info, id)`: the record stored under the id converted to the key's kind. */
  method GetNode(m: ModelClass, id: string, reg: KeyRegistry.Registry, store: Storage.Store)
    returns (r: Result<Record, Error>)
    requires reg.Valid()
    modifies reg, store`gets
    ensures reg.Valid()
    ensures !m.isModel ==> r == Err(TypeError(m.name))
    ensures m.isModel ==> (r ==
      match NodeKey(m, FirstHashKey(m.attributes), id)
      case Err(e) => Err(e)
      case Ok(key) => (match store.Stored(m, key) case Some(rec) => Ok(rec) case None => Err(DoesNotExist(key))))
    ensures store.gets == old(store.gets) + (if m.isModel && NodeKey(m, FirstHashKey(m.attributes), id).Ok? then 1 else 0)
    ensures reg.entries == KeyRegistry.Memo(old(reg.entries), m)
  {
    var keyName := reg.GetKeyName(m);
    if keyName.Err? {
      return Err(keyName.error);
    }
    var key := NodeKey(m, keyName.value, id);
    if key.Err? {
      return Err(key.error);
    }
    r := store.Get(m, key.value);
  }

  /** `getattr(self, key_name)`: a missing key name is a TypeError. */
  function IdOf(self: Record, keyName: Option<string>): (r: Result<Value, Error>)
    ensures keyName.None? ==> r.Err?
    ensures keyName.Some? && keyName.value in self.values ==> r == Ok(self.values[keyName.value])
  {
    match keyName
    case None => Err(TypeError("attribute name must be string"))
    case Some(k) => RecordAttr(self, k)
  }

  /** The GraphQL type a field is resolved on: whether it is a Node, and the model it is bound to. */
  datatype ParentType = ParentType(isNode: bool, model: ModelClass)

  /** `resolve_id(self, info)`: the key value when the parent type is a Node, `None` otherwise. */
  method ResolveId(self: Record, parent: ParentType, reg: KeyRegistry.Registry) returns (r: Result<Option<Value>, Error>)
    requires reg.Valid()
    modifies reg
    ensures reg.Valid()
    ensures !parent.isNode ==> r == Ok(None) && reg.entries == old(reg.entries)
    ensures parent.isNode ==> reg.entries == KeyRegistry.Memo(old(reg.entries), parent.model)
    ensures parent.isNode && !parent.model.isModel ==> r == Err(TypeError(parent.model.name))
    ensures parent.isNode && parent.model.isModel ==> (r ==
      match IdOf(self, FirstHashKey(parent.model.attributes))
      case Err(e) => Err(e)
      case Ok(v) => Ok(Some(v)))
  {
    if !parent.isNode {
      return Ok(None);
    }
    var keyName := reg.GetKeyName(parent.model);
    if keyName.Err? {
      return Err(keyName.error);
    }
    var v := IdOf(self, keyName.value);
    if v.Err? {
      return Err(v.error);
    }
    r := Ok(Some(v.value));
  }

  /** The first hash-key name is the name of a declared attribute. */
  lemma FirstHashKeyDeclared(attrs: seq<Attribute>)
    requires FirstHashKey(attrs).Some?
    ensures AttrByName(attrs, FirstHashKey(attrs).value).Some?
  {
    FirstHashKeyIsFirst(attrs);
  }

  /**
   * The id `resolve_id` gives a stored record, written as text, is what
   * `get_node` turns back into the record's key, for string and numeric keys.
   */
  lemma NodeIdRoundTrip(m: ModelClass, key: Value, store: Storage.Store)
    requires store.Valid()
    requires store.Stored(m, key).Some?
    requires KeyIsNumber(m, FirstHashKey(m.attributes).value) ==> key.VNum?
    requires !KeyIsNumber(m, FirstHashKey(m.attributes).value) ==> key.VStr?
    ensures IdOf(store.Stored(m, key).value, FirstHashKey(m.attributes)) == Ok(key)
    ensures NodeKey(m, FirstHashKey(m.attributes), PyStr(key)) == Ok(key)
  {
    FirstHashKeyDeclared(m.attributes);
    if key.VNum? {
      Numerals.ParseIntToString(key.n);
    }
  }
}
