/**
 * Lazy relationship proxies and foreign-key codecs
 * (graphene_pynamodb/relationships.py).
 *
 * A single proxy (`RelationshipResult`) stands for one related record: it
 * holds the key, and fetches the record the first time a non-key, non-private
 * attribute is read. A list proxy (`RelationshipResultList`) holds the keys
 * of many related records and fetches them only when resolved, in one batch.
 */
module Relationships {
  import opened Wrappers
  import opened Schema
  import Numerals
  import Storage
  import KeyRegistry

  // ---------------------------------------------------------------------------
  // pynamodb.constants, as DynamoDB type tags

  const NUMBER: string := "N"
  const LIST: string := "L"
  const STRING_SET: string := "SS"
  const MAP: string := "M"

  // ---------------------------------------------------------------------------
  // Single proxy

  /** What identifies a proxy and never changes: the key's attribute name, the key and the target model. */
  datatype LazyRef = LazyRef(keyName: string, key: Value, model: ModelClass) {

    /**
     * `proxy == other`: `other` is an instance of the target model and its
     * key attribute equals the stored key. Reading `other`'s key attribute
     * can raise AttributeError; nothing here depends on, or changes, whether
     * the proxy is resolved.
     */
    function Eq(other: Record): (r: Result<bool, Error>)
      ensures r.Ok? && r.value <==> IsInstance(other, model) && RecordAttr(other, keyName) == Ok(key)
      ensures r.Err? <==> IsInstance(other, model) && RecordAttr(other, keyName).Err?
    {
      if !IsInstance(other, model) then Ok(false)
      else match RecordAttr(other, keyName)
        case Ok(v) => Ok(key == v)
        case Err(e) => Err(e)
    }

    /** `proxy != other`: exactly the negation of `==`, raising when `==` raises. */
    function Ne(other: Record): (r: Result<bool, Error>)
      ensures r.Ok? <==> Eq(other).Ok?
      ensures r.Ok? ==> r.value == !Eq(other).value
    {
      match Eq(other)
      case Ok(b) => Ok(!b)
      case Err(e) => Err(e)
    }
  }

  /**
   * A proxy whose record is stored compares equal to that record: the key
   * comparison agrees with the store.
   */
  lemma EqStoredRecord(ref: LazyRef, store: Storage.Store)
    requires store.Valid()
    requires store.Stored(ref.model, ref.key).Some?
    requires FirstHashKey(ref.model.attributes) == Some(ref.keyName)
    ensures ref.Eq(store.Stored(ref.model, ref.key).value) == Ok(true)
  {
    var rec := store.tables[ref.model][ref.key];
    assert rec.values[ref.keyName] == ref.key;
  }

  /** The proxy's wrapped object: the model class, or the record fetched for the key. */
  datatype Wrapped = Unresolved | Resolved(record: Record)

  /** The outcome of an attribute read: a value, or a member looked up on the model class itself. */
  datatype Access = Got(v: Value) | ClassMember(name: string)

  predicate IsPrivate(name: string) {
    |name| > 0 && name[0] == '_'
  }

  /** Whether reading `name` from a proxy in state `w` fetches the record. */
  predicate Fetches(keyName: string, name: string, w: Wrapped) {
    name != keyName && !IsPrivate(name) && w.Unresolved?
  }

  /** `getattr(wrapped, name)`: a class member while unresolved, the record's attribute once resolved. */
  function ReadWrapped(w: Wrapped, name: string): Result<Access, Error> {
    match w
    case Unresolved => Ok(ClassMember(name))
    case Resolved(rec) =>
      match RecordAttr(rec, name)
      case Ok(v) => Ok(Got(v))
      case Err(e) => Err(e)
  }

  class RelationshipResult {
    const ref: LazyRef
    var wrapped: Wrapped

    /** `RelationshipResult(key_name, key, model)` for a Model class: an unresolved proxy. */
    constructor (ref: LazyRef)
      requires ref.model.isModel
      ensures this.ref == ref && wrapped == Unresolved
    {
      this.ref := ref;
      wrapped := Unresolved;
    }

    /** `RelationshipResult(key_name, key, obj)` for any class: TypeError unless it is a Model class. */
    static method New(ref: LazyRef) returns (r: Result<RelationshipResult, Error>)
      ensures r.Err? <==> !ref.model.isModel
      ensures r.Err? ==> r.error == TypeError(ref.model.name)
      ensures r.Ok? ==> fresh(r.value) && r.value.ref == ref && r.value.wrapped == Unresolved
    {
      if !ref.model.isModel {
        return Err(TypeError(ref.model.name));
      }
      var p := new RelationshipResult(ref);
      return Ok(p);
    }

    /**
     * `proxy.name` (`__getattr__`). The key attribute returns the stored key
     * in every state and never fetches. Any other public name read while
     * unresolved performs one `model.get(key)`; when that succeeds the proxy
     * keeps the record, and when it raises the proxy stays unresolved. Names
     * starting with `_`, and every read once resolved, never fetch.
     */
    method GetAttr(name: string, store: Storage.Store) returns (r: Result<Access, Error>)
      modifies this`wrapped, store`gets
      ensures store.gets == old(store.gets) + (if Fetches(ref.keyName, name, old(wrapped)) then 1 else 0)
      ensures name == ref.keyName ==> r == Ok(Got(ref.key))
      ensures !Fetches(ref.keyName, name, old(wrapped)) ==> wrapped == old(wrapped)
      ensures !Fetches(ref.keyName, name, old(wrapped)) && name != ref.keyName ==> r == ReadWrapped(wrapped, name)
      ensures Fetches(ref.keyName, name, old(wrapped)) ==>
        match store.Stored(ref.model, ref.key)
        case None => wrapped == Unresolved && r == Err(DoesNotExist(ref.key))
        case Some(rec) => wrapped == Resolved(rec) && r == ReadWrapped(wrapped, name)
    {
      if name == ref.keyName {
        return Ok(Got(ref.key));
      }
      if !IsPrivate(name) && wrapped.Unresolved? {
        var fetched := store.Get(ref.model, ref.key);
        match fetched {
          case Err(e) => return Err(e);
          case Ok(rec) => wrapped := Resolved(rec);
        }
      }
      r := ReadWrapped(wrapped, name);
    }
  }

  /** Some name in `names` would fetch on an unresolved proxy with key attribute `keyName`. */
  predicate AnyFetching(keyName: string, names: seq<string>) {
    exists i :: 0 <= i < |names| && names[i] != keyName && !IsPrivate(names[i])
  }

  /**
   * Reads a sequence of attributes from one proxy. When the record is stored,
   * the whole sequence costs one fetch if the proxy starts unresolved and
   * some name is public and not the key, and no fetch otherwise; every read
   * of the key attribute returns the stored key.
   */
  method ReadAttributes(p: RelationshipResult, names: seq<string>, store: Storage.Store)
    returns (results: seq<Result<Access, Error>>)
    modifies p`wrapped, store`gets
    ensures |results| == |names|
    ensures forall i :: 0 <= i < |names| && names[i] == p.ref.keyName ==> results[i] == Ok(Got(p.ref.key))
    ensures store.Stored(p.ref.model, p.ref.key).Some? ==>
      store.gets == old(store.gets) + (if old(p.wrapped).Unresolved? && AnyFetching(p.ref.keyName, names) then 1 else 0)
    ensures old(p.wrapped).Resolved? ==> store.gets == old(store.gets) && p.wrapped == old(p.wrapped)
  {
    results := [];
    var i := 0;
    while i < |names|
      invariant 0 <= i <= |names|
      invariant |results| == i
      invariant forall j :: 0 <= j < i && names[j] == p.ref.keyName ==> results[j] == Ok(Got(p.ref.key))
      invariant old(p.wrapped).Resolved? ==> p.wrapped == old(p.wrapped)
      invariant store.Stored(p.ref.model, p.ref.key).Some? ==>
        (p.wrapped.Unresolved? <==> old(p.wrapped).Unresolved? && !AnyFetching(p.ref.keyName, names[..i]))
      invariant store.Stored(p.ref.model, p.ref.key).Some? ==>
        store.gets == old(store.gets) + (if old(p.wrapped).Unresolved? && AnyFetching(p.ref.keyName, names[..i]) then 1 else 0)
      invariant old(p.wrapped).Resolved? ==> store.gets == old(store.gets)
    {
      assert names[..i + 1] == names[..i] + [names[i]];
      assert AnyFetching(p.ref.keyName, names[..i + 1]) <==>
        AnyFetching(p.ref.keyName, names[..i]) || (names[i] != p.ref.keyName && !IsPrivate(names[i])) by {
        if AnyFetching(p.ref.keyName, names[..i + 1]) {
          var j :| 0 <= j < i + 1 && names[..i + 1][j] != p.ref.keyName && !IsPrivate(names[..i + 1][j]);
          if j < i { assert names[..i][j] == names[..i + 1][j]; }
        }
        if AnyFetching(p.ref.keyName, names[..i]) {
          var j :| 0 <= j < i && names[..i][j] != p.ref.keyName && !IsPrivate(names[..i][j]);
          assert names[..i + 1][j] == names[..i][j];
        }
        if names[i] != p.ref.keyName && !IsPrivate(names[i]) {
          assert names[..i + 1][i] == names[i];
        }
      }
      var r := p.GetAttr(names[i], store);
      results := results + [r];
      i := i + 1;
    }
    assert names[..i] == names;
  }

  // ---------------------------------------------------------------------------
  // List proxy

  /** Python's bound for one end of `seq[start:stop]` (step 1) on a sequence of length `len`. */
  function SliceBound(b: Option<int>, len: nat, default: nat): (r: nat)
    requires default <= len
    ensures r <= len
    ensures b.None? ==> r == default
    ensures b.Some? && 0 <= b.value <= len ==> r == b.value
    ensures b.Some? && b.value > len ==> r == len
    ensures b.Some? && -(len as int) <= b.value < 0 ==> r == b.value + len
    ensures b.Some? && b.value < -(len as int) ==> r == 0
  {
    match b
    case None => default
    case Some(x) =>
      if x < 0 then (if x + len < 0 then 0 else x + len)
      else if x > len then len else x
  }

  /** `lst[i]`'s position for an index that Python accepts: a negative index counts from the end. */
  function Position(i: int, len: nat): nat
    requires -(len as int) <= i < len
  {
    if i < 0 then i + len else i
  }

  /** `RelationshipResultList(hash_key_name, model, keys)`: the related records' keys, in order. */
  datatype ResultList = ResultList(keyName: string, model: ModelClass, keys: seq<Value>) {

    /**
     * `lst[i]`: a lazy proxy for the `i`-th key (Python indexing, negative
     * from the end); IndexError out of range, then TypeError when the model
     * is not a Model class. Nothing is fetched.
     */
    function GetItem(i: int): (r: Result<LazyRef, Error>)
      ensures r.Ok? <==> -|keys| <= i < |keys| && model.isModel
      ensures !(-|keys| <= i < |keys|) ==> r == Err(IndexError(i))
      ensures r.Ok? ==> r.value.keyName == keyName && r.value.model == model
      ensures r.Ok? ==> r.value.key == keys[Position(i, |keys|)]
    {
      if !(-|keys| <= i < |keys|) then Err(IndexError(i))
      else if !model.isModel then Err(TypeError(model.name))
      else Ok(LazyRef(keyName, keys[Position(i, |keys|)], model))
    }

    /**
     * `lst[start:stop]`: a list proxy with the same key name and model over
     * the keys from the clamped start up to the clamped stop, empty when the
     * stop is not past the start.
     */
    function Slice(start: Option<int>, stop: Option<int>): (r: ResultList)
      ensures r.keyName == keyName && r.model == model
      ensures var lo, hi := SliceBound(start, |keys|, 0), SliceBound(stop, |keys|, |keys|);
        |r.keys| == (if lo < hi then hi - lo else 0) &&
        forall k :: 0 <= k < |r.keys| ==> r.keys[k] == keys[lo + k]
    {
      var lo := SliceBound(start, |keys|, 0);
      var hi := SliceBound(stop, |keys|, |keys|);
      ResultList(keyName, model, if lo < hi then keys[lo..hi] else [])
    }

    /** `lst[i:j]` through Python 2's `__getslice__`: the same list proxy as slicing with both bounds given. */
    function GetSlice(i: int, j: int): (r: ResultList)
      ensures r.keyName == keyName && r.model == model
      ensures 0 <= i <= j <= |keys| ==> r.keys == keys[i..j]
      ensures 0 <= j <= i ==> r.keys == []
      ensures 0 <= i <= |keys| <= j ==> r.keys == keys[i..]
      ensures r == Slice(Some(i), Some(j))
    {
      Slice(Some(i), Some(j))
    }

    /**
     * `iter(lst)`: one lazy proxy per key, in key order; the first proxy
     * raises TypeError when the model is not a Model class.
     */
    function Iter(): (r: Result<seq<LazyRef>, Error>)
      ensures r.Ok? <==> |keys| == 0 || model.isModel
      ensures r.Err? ==> r.error == TypeError(model.name)
      ensures r.Ok? ==> |r.value| == |keys| && forall i :: 0 <= i < |keys| ==> r.value[i] == LazyRef(keyName, keys[i], model)
    {
      if |keys| == 0 then Ok([])
      else if !model.isModel then Err(TypeError(model.name))
      else Ok(seq(|keys|, k requires 0 <= k < |keys| => LazyRef(keyName, keys[k], model)))
    }

    /**
     * The dict `resolve` builds from a batch result: each entity under its
     * key, a later entity replacing an earlier one with the same key.
     */
    function BatchIndex(batch: seq<Record>): map<Value, Record>
      decreases |batch|
    {
      if |batch| == 0 then map[]
      else
        var last := batch[|batch| - 1];
        BatchIndex(batch[..|batch| - 1])[FieldOf(last, keyName) := last]
    }

    /**
     * `[models[key] for key in keys]` over the dict of a batch result:
     * KeyError for the first key with no entity.
     */
    function Collect(index: map<Value, Record>, ks: seq<Value>): Result<seq<Record>, Error>
      ensures (forall i :: 0 <= i < |ks| ==> ks[i] in index) ==> Collect(index, ks).Ok?
      decreases |ks|
    {
      if |ks| == 0 then Ok([])
      else if ks[0] !in index then Err(KeyError(ks[0]))
      else match Collect(index, ks[1..])
        case Ok(rest) => Ok([index[ks[0]]] + rest)
        case Err(e) => Err(e)
    }

    /** The pure part of `resolve`: order a batch result by the keys. */
    function ResolveWith(batch: seq<Record>): Result<seq<Record>, Error> {
      Collect(BatchIndex(batch), keys)
    }

    /** Some entity of `batch` has key `k`. */
    predicate KeyedIn(batch: seq<Record>, k: Value) {
      exists j :: 0 <= j < |batch| && FieldOf(batch[j], keyName) == k
    }

    /**
     * `resolve()`: one `batch_get` for all keys, then the records in key
     * order, whatever order the batch came back in; KeyError when a key has
     * no record.
     */
    method Resolve(store: Storage.Store) returns (r: Result<seq<Record>, Error>)
      requires store.Valid()
      requires FirstHashKey(model.attributes) == Some(keyName)
      modifies store`batchGets
      ensures store.batchGets == old(store.batchGets) + 1
      ensures r.Ok? <==> forall i :: 0 <= i < |keys| ==> store.Stored(model, keys[i]).Some?
      ensures r.Ok? ==> (|r.value| == |keys| &&
        forall i :: 0 <= i < |keys| ==> Some(r.value[i]) == store.Stored(model, keys[i]))
      ensures r.Err? ==> exists i :: (0 <= i < |keys| && r == Err(KeyError(keys[i])) &&
        store.Stored(model, keys[i]).None? && forall j :: 0 <= j < i ==> store.Stored(model, keys[j]).Some?)
    {
      var batch := store.BatchGet(model, keys);
      r := ResolveWith(batch);
      CollectSpec(BatchIndex(batch), keys);
      forall i | 0 <= i < |keys|
        ensures keys[i] in BatchIndex(batch) <==> store.Stored(model, keys[i]).Some?
        ensures keys[i] in BatchIndex(batch) ==> Some(BatchIndex(batch)[keys[i]]) == store.Stored(model, keys[i])
      {
        IndexAgreesWithStore(store, batch, keys[i]);
      }
    }

    /**
     * For a batch that `batch_get` may return for these keys, the dict built
     * from it holds a key of the list exactly when the store has that key,
     * and then holds the stored record.
     */
    lemma IndexAgreesWithStore(store: Storage.Store, batch: seq<Record>, k: Value)
      requires store.Valid()
      requires FirstHashKey(model.attributes) == Some(keyName)
      requires forall e :: e in batch ==> exists k' :: k' in keys && store.Stored(model, k') == Some(e)
      requires forall k' :: k' in keys && store.Stored(model, k').Some? ==> store.Stored(model, k').value in batch
      requires k in keys
      ensures k in BatchIndex(batch) <==> store.Stored(model, k).Some?
      ensures k in BatchIndex(batch) ==> Some(BatchIndex(batch)[k]) == store.Stored(model, k)
    {
      BatchIndexAt(batch, k);
      if k in BatchIndex(batch) {
        var e := BatchIndex(batch)[k];
        var k' :| k' in keys && store.Stored(model, k') == Some(e);
        assert FieldOf(e, keyName) == k';
      }
    }

    /**
     * A key is in the dict of a batch result exactly when some entity of the
     * batch has it, and it maps to an entity of the batch with that key.
     */
    lemma {:induction false} BatchIndexAt(batch: seq<Record>, k: Value)
      ensures k in BatchIndex(batch) <==> KeyedIn(batch, k)
      ensures k in BatchIndex(batch) ==> BatchIndex(batch)[k] in batch && FieldOf(BatchIndex(batch)[k], keyName) == k
      decreases |batch|
    {
      if |batch| > 0 {
        var init := batch[..|batch| - 1];
        var last := batch[|batch| - 1];
        BatchIndexAt(init, k);
        if FieldOf(last, keyName) != k {
          if KeyedIn(init, k) {
            var j :| 0 <= j < |init| && FieldOf(init[j], keyName) == k;
            assert batch[j] == init[j];
          }
          if KeyedIn(batch, k) {
            var j :| 0 <= j < |batch| && FieldOf(batch[j], keyName) == k;
            assert j < |init| && init[j] == batch[j];
          }
          if k in BatchIndex(init) {
            assert BatchIndex(init)[k] in init;
          }
        }
      }
    }

    /** `Collect` yields, in key order, the dict's entry for every key, or fails at the first missing key. */
    lemma {:induction false} CollectSpec(index: map<Value, Record>, ks: seq<Value>)
      ensures Collect(index, ks).Ok? <==> forall i :: 0 <= i < |ks| ==> ks[i] in index
      ensures Collect(index, ks).Ok? ==> (|Collect(index, ks).value| == |ks| &&
        forall i :: 0 <= i < |ks| ==> Collect(index, ks).value[i] == index[ks[i]])
      ensures Collect(index, ks).Err? ==> exists i :: (0 <= i < |ks| && ks[i] !in index &&
        Collect(index, ks) == Err(KeyError(ks[i])) && forall j :: 0 <= j < i ==> ks[j] in index)
      decreases |ks|
    {
      if |ks| > 0 {
        CollectSpec(index, ks[1..]);
        if ks[0] in index && Collect(index, ks[1..]).Err? {
          var i :| 0 <= i < |ks[1..]| && ks[1..][i] !in index &&
            Collect(index, ks[1..]) == Err(KeyError(ks[1..][i])) && forall j :: 0 <= j < i ==> ks[1..][j] in index;
          assert ks[i + 1] == ks[1..][i];
          forall j | 0 <= j < i + 1 ensures ks[j] in index {
            if j > 0 { assert ks[j] == ks[1..][j - 1]; }
          }
        }
        if Collect(index, ks).Ok? {
          forall i | 0 <= i < |ks| ensures Collect(index, ks).value[i] == index[ks[i]] {
            if i > 0 { assert ks[i] == ks[1..][i - 1]; }
          }
        }
        if Collect(index, ks[1..]).Err? {
          var i :| 0 <= i < |ks[1..]| && ks[1..][i] !in index;
          assert ks[i + 1] !in index;
        }
      }
    }

    /**
     * Resolving against ANY batch result: success exactly when every key has
     * an entity in the batch; then element `i` is an entity of the batch
     * whose key is `keys[i]`. Otherwise KeyError names the first missing key.
     */
    lemma ResolveWithSpec(batch: seq<Record>)
      ensures ResolveWith(batch).Ok? <==> forall i :: 0 <= i < |keys| ==> KeyedIn(batch, keys[i])
      ensures ResolveWith(batch).Ok? ==> (|ResolveWith(batch).value| == |keys| &&
        forall i :: 0 <= i < |keys| ==>
          ResolveWith(batch).value[i] in batch && FieldOf(ResolveWith(batch).value[i], keyName) == keys[i])
      ensures ResolveWith(batch).Err? ==>
        exists i :: 0 <= i < |keys| && ResolveWith(batch) == Err(KeyError(keys[i])) && !KeyedIn(batch, keys[i])
    {
      CollectSpec(BatchIndex(batch), keys);
      forall i | 0 <= i < |keys| ensures keys[i] in BatchIndex(batch) <==> KeyedIn(batch, keys[i])
        ensures keys[i] in BatchIndex(batch) ==>
          BatchIndex(batch)[keys[i]] in batch && FieldOf(BatchIndex(batch)[keys[i]], keyName) == keys[i]
      {
        BatchIndexAt(batch, keys[i]);
      }
    }
  }

  /**
   * Indexing a slice, for any bounds, is indexing the original list at the
   * clamped start plus the offset.
   */
  lemma SliceGetItem(l: ResultList, start: Option<int>, stop: Option<int>, k: nat)
    requires k < |l.Slice(start, stop).keys|
    ensures l.Slice(start, stop).GetItem(k) == l.GetItem(SliceBound(start, |l.keys|, 0) + k)
  {
  }

  /** Iteration yields, in order, exactly the proxies that indexing yields. */
  lemma IterMatchesGetItem(l: ResultList)
    ensures l.Iter().Ok? <==> |l.keys| == 0 || l.model.isModel
    ensures l.Iter().Ok? ==> (|l.Iter().value| == |l.keys| &&
      forall i :: 0 <= i < |l.keys| ==> l.GetItem(i) == Ok(l.Iter().value[i]))
  {
  }

  // ---------------------------------------------------------------------------
  // Foreign-key codecs

  /**
   * `str(getattr(model, key_name))`: the text of the record's key attribute
   * (`"None"` when it is declared but unset); AttributeError when the
   * record's class does not declare it.
   */
  function SerializeOneKey(keyName: string, rec: Record): (r: Result<string, Error>)
    ensures r.Ok? <==> RecordAttr(rec, keyName).Ok?
    ensures r.Ok? ==> r.value == PyStr(RecordAttr(rec, keyName).value)
    ensures r.Err? ==> r.error == AttributeError(keyName)
  {
    match RecordAttr(rec, keyName)
    case Ok(v) => Ok(PyStr(v))
    case Err(e) => Err(e)
  }

  /**
   * The key `OneToOne.deserialize` rebuilds from stored text: `int(text)`
   * when the target's key attribute is a NumberAttribute, the text itself
   * otherwise; AttributeError when the target has no such attribute.
   */
  function DeserializeOneKey(target: ModelClass, keyName: string, hashKey: string): (r: Result<Value, Error>)
    ensures r.Ok? && KeyIsNumber(target, keyName) ==> r.value.VNum?
    ensures r.Ok? && !KeyIsNumber(target, keyName) ==> r.value == VStr(hashKey)
    ensures r.Err? <==> (AttrByName(target.attributes, keyName).None? ||
      (KeyIsNumber(target, keyName) && Numerals.ParseInt(hashKey).None?))
  {
    if AttrByName(target.attributes, keyName).None? then Err(AttributeError(keyName))
    else if KeyIsNumber(target, keyName) then
      match Numerals.ParseInt(hashKey)
      case Some(n) => Ok(VNum(n))
      case None => Err(ValueError(hashKey))
    else Ok(VStr(hashKey))
  }

  /**
   * `deserialize(serialize(m))` carries `m`'s key: a numeric key survives
   * `str` then `int`, a string key is passed through.
   */
  lemma OneToOneRoundTrip(target: ModelClass, keyName: string, rec: Record)
    requires AttrByName(target.attributes, keyName).Some?
    requires KeyIsNumber(target, keyName) ==> FieldOf(rec, keyName).VNum?
    requires !KeyIsNumber(target, keyName) ==> FieldOf(rec, keyName).VStr?
    ensures SerializeOneKey(keyName, rec).Ok?
    ensures DeserializeOneKey(target, keyName, SerializeOneKey(keyName, rec).value) == Ok(FieldOf(rec, keyName))
  {
    if KeyIsNumber(target, keyName) {
      Numerals.ParseIntToString(FieldOf(rec, keyName).n);
    }
  }

  /**
   * One step of `OneToMany.deserialize`'s comprehension over type-tagged
   * maps: `hash_key[key_type]`, through `int` for the NUMBER tag. A missing
   * tag is a KeyError, an element that is not a dict a TypeError.
   */
  function TaggedKey(h: Value, tag: string): Result<Value, Error> {
    match h
    case VDict(entries) =>
      (match DictGet(entries, tag)
       case None => Err(KeyError(VStr(tag)))
       case Some(t) =>
         if tag == NUMBER then
           match Numerals.ParseInt(t)
           case Some(n) => Ok(VNum(n))
           case None => Err(ValueError(t))
         else Ok(VStr(t)))
    case _ => Err(TypeError("string indices must be integers"))
  }

  /** The comprehension itself: each element in order; the first failing element's error. */
  function TaggedKeys(hs: seq<Value>, tag: string): Result<seq<Value>, Error>
    decreases |hs|
  {
    if |hs| == 0 then Ok([])
    else match TaggedKey(hs[0], tag)
      case Err(e) => Err(e)
      case Ok(k) =>
        match TaggedKeys(hs[1..], tag)
        case Ok(rest) => Ok([k] + rest)
        case Err(e) => Err(e)
  }

  lemma {:induction false} TaggedKeysSpec(hs: seq<Value>, tag: string)
    ensures TaggedKeys(hs, tag).Ok? <==> forall i :: 0 <= i < |hs| ==> TaggedKey(hs[i], tag).Ok?
    ensures TaggedKeys(hs, tag).Ok? ==> (|TaggedKeys(hs, tag).value| == |hs| &&
      forall i :: 0 <= i < |hs| ==> TaggedKeys(hs, tag).value[i] == TaggedKey(hs[i], tag).value)
    ensures TaggedKeys(hs, tag).Err? ==> exists i :: (0 <= i < |hs| && TaggedKey(hs[i], tag).Err? &&
      TaggedKeys(hs, tag).error == TaggedKey(hs[i], tag).error &&
      forall j :: 0 <= j < i ==> TaggedKey(hs[j], tag).Ok?)
    decreases |hs|
  {
    if |hs| > 0 {
      TaggedKeysSpec(hs[1..], tag);
      assert forall i :: 0 < i < |hs| ==> hs[i] == hs[1..][i - 1];
      if TaggedKey(hs[0], tag).Ok? && TaggedKeys(hs[1..], tag).Err? {
        var i :| 0 <= i < |hs[1..]| && TaggedKey(hs[1..][i], tag).Err? &&
          TaggedKeys(hs[1..], tag).error == TaggedKey(hs[1..][i], tag).error &&
          forall j :: 0 <= j < i ==> TaggedKey(hs[1..][j], tag).Ok?;
        assert hs[i + 1] == hs[1..][i];
        forall j | 0 <= j < i + 1 ensures TaggedKey(hs[j], tag).Ok? {
          if j > 0 { assert hs[j] == hs[1..][j - 1]; }
        }
      }
    }
  }

  /** Whether `OneToMany.deserialize` reads its argument as type-tagged maps: its first element is a dict. */
  predicate IsTagged(hashKeys: seq<Value>) {
    |hashKeys| > 0 && hashKeys[0].VDict?
  }

  /**
   * The key list of the tagged branch, all under the first map's first tag
   * (IndexError when that map is empty). It reads neither the target nor
   * its key name.
   */
  function DecodeTagged(hashKeys: seq<Value>): Result<seq<Value>, Error>
    requires IsTagged(hashKeys)
  {
    if |hashKeys[0].entries| == 0 then Err(IndexError(0))
    else TaggedKeys(hashKeys, hashKeys[0].entries[0].0)
  }

  /**
   * `OneToMany.deserialize`'s key list. A list whose first element is a
   * dict is read as type-tagged maps, all with the first element's first
   * tag (IndexError when that dict is empty); any other list is passed
   * through unchanged after `getattr(model, key_name)` has been looked up.
   */
  function DeserializeManyKeys(target: ModelClass, keyName: string, hashKeys: seq<Value>): (r: Result<seq<Value>, Error>)
    ensures |hashKeys| > 0 && hashKeys[0].VDict? && |hashKeys[0].entries| == 0 ==> r == Err(IndexError(0))
    ensures (|hashKeys| == 0 || !hashKeys[0].VDict?) ==>
      r == (if AttrByName(target.attributes, keyName).Some? then Ok(hashKeys) else Err(AttributeError(keyName)))
    ensures r.Ok? ==> |r.value| == |hashKeys|
    ensures IsTagged(hashKeys) ==> r == DecodeTagged(hashKeys)
  {
    if IsTagged(hashKeys) then
      if |hashKeys[0].entries| == 0 then DecodeTagged(hashKeys)
      else TaggedKeysSpec(hashKeys, hashKeys[0].entries[0].0); DecodeTagged(hashKeys)
    else if AttrByName(target.attributes, keyName).None? then Err(AttributeError(keyName))
    else Ok(hashKeys)
  }

  /** A list that does not start with a dict comes back as it is. */
  lemma DeserializeManyPlain(target: ModelClass, keyName: string, hashKeys: seq<Value>)
    requires |hashKeys| == 0 || !hashKeys[0].VDict?
    requires AttrByName(target.attributes, keyName).Some?
    ensures DeserializeManyKeys(target, keyName, hashKeys) == Ok(hashKeys)
  {
  }

  /**
   * Tagged maps decode element by element, in order: element `i` is the
   * value under the first element's tag, parsed with `int` for NUMBER.
   */
  lemma DeserializeManyTagged(target: ModelClass, keyName: string, hashKeys: seq<Value>)
    requires |hashKeys| > 0 && hashKeys[0].VDict? && |hashKeys[0].entries| > 0
    ensures var tag := hashKeys[0].entries[0].0;
      var r := DeserializeManyKeys(target, keyName, hashKeys);
      (r.Ok? <==> forall i :: 0 <= i < |hashKeys| ==> TaggedKey(hashKeys[i], tag).Ok?) &&
      (r.Ok? ==> (|r.value| == |hashKeys| &&
        forall i :: 0 <= i < |hashKeys| ==> r.value[i] == TaggedKey(hashKeys[i], tag).value))
  {
    TaggedKeysSpec(hashKeys, hashKeys[0].entries[0].0);
  }

  /**
   * `OneToMany.serialize` as written: `getattr(self.model, key_name)` raises
   * AttributeError when the target has no such attribute; otherwise
   * `MAP[attr_type]` indexes the string constant `MAP` with a string, which
   * raises TypeError before any record is looked at.
   */
  function SerializeManyAsWritten(target: ModelClass, keyName: string, models: seq<Record>): (r: Result<seq<Value>, Error>)
    ensures AttrByName(target.attributes, keyName).None? ==> r == Err(AttributeError(keyName))
    ensures AttrByName(target.attributes, keyName).Some? ==> r.Err? && r.error.TypeError?
  {
    if AttrByName(target.attributes, keyName).None? then Err(AttributeError(keyName))
    else Err(TypeError("string indices must be integers"))
  }

  /** `[{tag: str(getattr(model, key_name))} for model in models]`: the first failing record's error. */
  function TagKeys(tag: string, keyName: string, models: seq<Record>): Result<seq<Value>, Error>
    decreases |models|
  {
    if |models| == 0 then Ok([])
    else match SerializeOneKey(keyName, models[0])
      case Err(e) => Err(e)
      case Ok(t) =>
        match TagKeys(tag, keyName, models[1..])
        case Ok(rest) => Ok([VDict([(tag, t)])] + rest)
        case Err(e) => Err(e)
  }

  lemma {:induction false} TagKeysSpec(tag: string, keyName: string, models: seq<Record>)
    ensures TagKeys(tag, keyName, models).Ok? <==> forall i :: 0 <= i < |models| ==> SerializeOneKey(keyName, models[i]).Ok?
    ensures TagKeys(tag, keyName, models).Ok? ==> (|TagKeys(tag, keyName, models).value| == |models| &&
      forall i :: 0 <= i < |models| ==>
        TagKeys(tag, keyName, models).value[i] == VDict([(tag, SerializeOneKey(keyName, models[i]).value)]))
    ensures TagKeys(tag, keyName, models).Err? ==> TagKeys(tag, keyName, models).error == AttributeError(keyName)
    decreases |models|
  {
    if |models| > 0 {
      TagKeysSpec(tag, keyName, models[1..]);
      assert forall i :: 0 < i < |models| ==> models[i] == models[1..][i - 1];
    }
  }

  /**
   * `OneToMany.serialize`, tagging each key with the key attribute's own
   * type tag: one `{tag: str(key)}` map per record, in order. AttributeError
   * when the target, or one of the records, has no such attribute.
   */
  function SerializeMany(target: ModelClass, keyName: string, models: seq<Record>): (r: Result<seq<Value>, Error>)
    ensures r.Ok? <==> (AttrByName(target.attributes, keyName).Some? &&
      forall i :: 0 <= i < |models| ==> RecordAttr(models[i], keyName).Ok?)
    ensures r.Err? ==> r.error == AttributeError(keyName)
    ensures r.Ok? ==> (|r.value| == |models| &&
      forall i :: 0 <= i < |models| ==> (r.value[i] ==
        VDict([(AttrType(AttrByName(target.attributes, keyName).value.kind), PyStr(RecordAttr(models[i], keyName).value))])))
  {
    match AttrByName(target.attributes, keyName)
    case None => Err(AttributeError(keyName))
    case Some(a) =>
      TagKeysSpec(AttrType(a.kind), keyName, models);
      TagKeys(AttrType(a.kind), keyName, models)
  }

  /**
   * Round trip of the corrected serializer: deserializing what it produces
   * gives back every record's key, in order, numeric keys as numbers.
   */
  lemma OneToManyRoundTrip(target: ModelClass, keyName: string, models: seq<Record>)
    requires AttrByName(target.attributes, keyName).Some?
    requires forall i :: 0 <= i < |models| ==>
      (if AttrType(AttrByName(target.attributes, keyName).value.kind) == NUMBER
       then FieldOf(models[i], keyName).VNum? else FieldOf(models[i], keyName).VStr?)
    ensures SerializeMany(target, keyName, models).Ok?
    ensures DeserializeManyKeys(target, keyName, SerializeMany(target, keyName, models).value)
      == Ok(seq(|models|, i requires 0 <= i < |models| => FieldOf(models[i], keyName)))
  {
    var tag := AttrType(AttrByName(target.attributes, keyName).value.kind);
    var hs := SerializeMany(target, keyName, models).value;
    var want := seq(|models|, i requires 0 <= i < |models| => FieldOf(models[i], keyName));
    forall i | 0 <= i < |models| ensures RecordAttr(models[i], keyName) == Ok(want[i]) {
      assert keyName in models[i].values;
    }
    if |models| > 0 {
      assert hs[0].entries[0].0 == tag;
      forall i | 0 <= i < |hs| ensures TaggedKey(hs[i], tag) == Ok(want[i]) {
        var v := FieldOf(models[i], keyName);
        assert DictGet(hs[i].entries, tag) == Some(PyStr(v));
        if tag == NUMBER { Numerals.ParseIntToString(v.n); }
      }
      TaggedKeysSpec(hs, tag);
      assert TaggedKeys(hs, tag).value == want;
    } else {
      assert hs == [] && want == [];
    }
  }

  /** A concrete record on which the serializer as written and the corrected one part ways. */
  lemma SerializeManyDiscrepancy()
    ensures var pk := Attribute("id", Number, true, false, Some(false));
      var m := ModelClass("Reporter", [pk], true, {});
      var rec := Record(m, map["id" := VNum(1)]);
      SerializeManyAsWritten(m, "id", [rec]).Err? && SerializeManyAsWritten(m, "id", [rec]).error.TypeError? &&
      SerializeMany(m, "id", [rec]) == Ok([VDict([("N", "1")])])
  {
    var pk := Attribute("id", Number, true, false, Some(false));
    var m := ModelClass("Reporter", [pk], true, {});
    var rec := Record(m, map["id" := VNum(1)]);
    assert Numerals.IntToString(1) == "1";
    assert SerializeOneKey("id", rec) == Ok("1");
    assert [rec][1..] == [];
    assert TagKeys("N", "id", []) == Ok([]);
    assert TagKeys("N", "id", [rec]) == Ok([VDict([("N", "1")])] + []);
    assert [VDict([("N", "1")])] + [] == [VDict([("N", "1")])];
    assert TagKeys("N", "id", [rec]) == Ok([VDict([("N", "1")])]);
  }

  /** A stored attribute value as DynamoDB returns it: a map from type tag to payload, or something else. */
  datatype AttrValue = AttrMap(entries: seq<(string, seq<Value>)>) | NotAMap(v: Value)

  /**
   * `OneToMany.get_value`: the legacy string-set payload when the map has
   * one, else the list payload; KeyError without either, TypeError for a
   * value that is not a map.
   */
  function GetValue(v: AttrValue): (r: Result<seq<Value>, Error>)
    ensures v.AttrMap? && DictGet(v.entries, STRING_SET).Some? ==> r == Ok(DictGet(v.entries, STRING_SET).value)
    ensures v.AttrMap? && DictGet(v.entries, STRING_SET).None? ==>
      r == (if DictGet(v.entries, LIST).Some? then Ok(DictGet(v.entries, LIST).value) else Err(KeyError(VStr(LIST))))
    ensures v.NotAMap? ==> r.Err? && r.error.TypeError?
  {
    match v
    case NotAMap(_) => Err(TypeError("indices must be integers"))
    case AttrMap(entries) =>
      match DictGet(entries, STRING_SET)
      case Some(p) => Ok(p)
      case None =>
        match DictGet(entries, LIST)
        case Some(p) => Ok(p)
        case None => Err(KeyError(VStr(LIST)))
  }

  // ---------------------------------------------------------------------------
  // Relationship attributes

  /** The target a relationship is declared with: a model class, or a model's class name. */
  datatype ModelRef = ByName(name: string) | ByClass(cls: ModelClass)

  /** What `_model` holds: the declared name until looked up, then the class found (or `None`). */
  datatype ModelSlot = Named(name: string) | Class(cls: Option<ModelClass>)

  datatype Cardinality = OneToOne | OneToMany

  /** What `deserialize` returns: lazy proxies, or the records fetched at once. */
  datatype Deserialized =
    | LazyOne(ref: LazyRef)
    | FetchedOne(record: Record)
    | LazyMany(list: ResultList)
    | LazyManyUnkeyed(model: ModelClass, keys: seq<Value>)   // `RelationshipResultList(None, model, keys)`
    | FetchedMany(records: seq<Record>)

  /**
   * What one `batch_get(keys)` on `m` may answer: only stored records of
   * the keys, and every stored record of them.
   */
  predicate BatchOf(records: seq<Record>, store: Storage.Store, m: ModelClass, keys: seq<Value>) {
    (forall e :: e in records ==> exists k :: k in keys && store.Stored(m, k) == Some(e))
    && (forall k :: k in keys && store.Stored(m, k).Some? ==> store.Stored(m, k).value in records)
  }

  /**
   * `Relationship.get_model(name)`: the first model, in the scanned order,
   * whose class name is `name`.
   */
  function FindModel(models: seq<ModelClass>, name: string): (r: Option<ModelClass>)
    ensures r.None? <==> forall i :: 0 <= i < |models| ==> models[i].name != name
    ensures r.Some? ==> exists i :: (0 <= i < |models| && models[i] == r.value && r.value.name == name &&
      forall j :: 0 <= j < i ==> models[j].name != name)
  {
    if |models| == 0 then None
    else if models[0].name == name then Some(models[0])
    else
      var r := FindModel(models[1..], name);
      assert forall i :: 0 < i < |models| ==> models[i] == models[1..][i - 1];
      if r.Some? then
        var i :| 0 <= i < |models[1..]| && models[1..][i] == r.value && r.value.name == name &&
          forall j :: 0 <= j < i ==> models[1..][j].name != name;
        assert models[i + 1] == r.value;
        r
      else r
  }

  /** The class the `model` property gives when `_model` is `slot`. */
  function Target(slot: ModelSlot, models: seq<ModelClass>): (r: Option<ModelClass>)
    ensures slot.Class? ==> r == slot.cls
    ensures slot.Named? ==> r == FindModel(models, slot.name)
  {
    match slot
    case Named(n) => FindModel(models, n)
    case Class(c) => c
  }

  /**
   * The key name and model the codecs start from when `_model` is `slot`:
   * the target's first hash key and the target. TypeError when the target
   * was not found or is not a Model (`get_key_name`'s `issubclass`), or
   * declares no hash key (`getattr(model, None)`).
   */
  function KeyTarget(slot: ModelSlot, models: seq<ModelClass>): (r: Result<(string, ModelClass), Error>)
    ensures r.Ok? <==> (Target(slot, models).Some? && Target(slot, models).value.isModel
      && FirstHashKey(Target(slot, models).value.attributes).Some?)
    ensures r.Ok? ==> r.value == (FirstHashKey(Target(slot, models).value.attributes).value, Target(slot, models).value)
    ensures r.Err? ==> r.error.TypeError?
  {
    match Target(slot, models)
    case None => Err(TypeError("issubclass() arg 1 must be a class"))
    case Some(m) =>
      if !m.isModel then Err(TypeError(m.name))
      else match FirstHashKey(m.attributes)
        case None => Err(TypeError("attribute name must be string"))
        case Some(n) => Ok((n, m))
  }

  /**
   * `MODEL_KEY_REGISTRY` after `hash_key_name` is read with `_hash_key_name`
   * equal to `remembered` and `_model` equal to `slot`: untouched when a
   * non-empty name was remembered or no target was found, else what
   * `get_key_name(target)` leaves.
   */
  function RegistryAfter(entries: map<ModelClass, string>, remembered: Option<string>, slot: ModelSlot,
                         models: seq<ModelClass>): map<ModelClass, string>
  {
    if remembered.Some? && remembered.value != "" then entries
    else match Target(slot, models)
      case None => entries
      case Some(m) => KeyRegistry.Memo(entries, m)
  }

  /**
   * `RelationshipResultList(self.hash_key_name, self.model, keys)` on the
   * tagged path, from `_model` equal to `slot`: TypeError when the target
   * was not found or is not a Model; a list proxy with key name `None`
   * when it declares no hash key.
   */
  function LazyTagged(slot: ModelSlot, models: seq<ModelClass>, keys: seq<Value>): Result<Deserialized, Error> {
    match KeyTarget(slot, models)
    case Ok((name, m)) => Ok(LazyMany(ResultList(name, m, keys)))
    case Err(e) =>
      if Target(slot, models).Some? && Target(slot, models).value.isModel
      then Ok(LazyManyUnkeyed(Target(slot, models).value, keys))
      else Err(e)
  }

  /** A `OneToOne` or `OneToMany` attribute with its lazily looked-up model and key name. */
  class Relationship {
    const cardinality: Cardinality
    const lazy: bool
    /** `_model` */
    var model: ModelSlot
    /** `_hash_key_name`: `None` until first asked for. */
    var hashKeyName: Option<string>

    /** A remembered (non-empty) key name is the hash key of the model looked up. */
    ghost predicate Valid()
      reads this
    {
      hashKeyName.Some? && hashKeyName.value != "" ==>
        model.Class? && model.cls.Some? && model.cls.value.isModel
        && FirstHashKey(model.cls.value.attributes) == hashKeyName
    }

    /**
     * The state reading `hash_key_name` leaves, from `_model` equal to
     * `slot`, `_hash_key_name` equal to `remembered` and the registry
     * `entries`: the target looked up, the registry updated by
     * `get_key_name`, and the key name kept when one was found.
     */
    ghost predicate ResolvedFrom(slot: ModelSlot, remembered: Option<string>, entries: map<ModelClass, string>,
                                 models: seq<ModelClass>, reg: KeyRegistry.Registry)
      reads this, reg
    {
      model == Class(Target(slot, models))
      && reg.entries == RegistryAfter(entries, remembered, slot, models)
      && (KeyTarget(slot, models).Ok? ==> hashKeyName == Some(KeyTarget(slot, models).value.0))
      && (KeyTarget(slot, models).Err? ==> hashKeyName == remembered || hashKeyName == None)
    }

    constructor (ref: ModelRef, lazy: bool, cardinality: Cardinality)
      ensures Valid()
      ensures this.lazy == lazy && this.cardinality == cardinality && hashKeyName == None
      ensures model == match ref case ByName(n) => Named(n) case ByClass(c) => Class(Some(c))
    {
      this.lazy := lazy;
      this.cardinality := cardinality;
      model := match ref case ByName(n) => Named(n) case ByClass(c) => Class(Some(c));
      hashKeyName := None;
    }

    /**
     * `Relationship.__init__`: TypeError when the target is a class that is
     * not a Model; a name is accepted as it is.
     */
    static method Create(ref: ModelRef, lazy: bool, cardinality: Cardinality) returns (r: Result<Relationship, Error>)
      ensures r.Err? <==> ref.ByClass? && !ref.cls.isModel
      ensures r.Ok? ==> (fresh(r.value) && r.value.Valid() && r.value.lazy == lazy
        && r.value.cardinality == cardinality && r.value.hashKeyName == None
        && r.value.model == match ref case ByName(n) => Named(n) case ByClass(c) => Class(Some(c)))
    {
      if ref.ByClass? && !ref.cls.isModel {
        return Err(TypeError(ref.cls.name));
      }
      var rel := new Relationship(ref, lazy, cardinality);
      return Ok(rel);
    }

    /**
     * The `model` property: a declared name is looked up once among
     * `models` (the Model subclasses) and replaced by what was found; a
     * class is kept as it is.
     */
    method Model(models: seq<ModelClass>) returns (m: Option<ModelClass>)
      requires Valid()
      modifies this`model
      ensures Valid()
      ensures old(model).Named? ==> model == Class(FindModel(models, old(model).name))
      ensures old(model).Class? ==> model == old(model)
      ensures model == Class(Target(old(model), models)) && m == model.cls
    {
      if model.Named? {
        model := Class(FindModel(models, model.name));
      }
      m := model.cls;
    }

    /**
     * The `hash_key_name` property: a remembered non-empty name is returned
     * as it is; otherwise `get_key_name(self.model)` is asked (TypeError for
     * a model that was not found or is not a Model) and its answer kept.
     */
    method HashKeyName(models: seq<ModelClass>, reg: KeyRegistry.Registry) returns (r: Result<Option<string>, Error>)
      requires Valid() && reg.Valid()
      modifies this`model, this`hashKeyName, reg
      ensures Valid() && reg.Valid()
      ensures model == Class(Target(old(model), models))
      ensures reg.entries == RegistryAfter(old(reg.entries), old(hashKeyName), old(model), models)
      ensures old(hashKeyName).Some? && old(hashKeyName).value != "" ==>
        r == Ok(old(hashKeyName)) && hashKeyName == old(hashKeyName)
      ensures r.Err? <==> model.cls.None? || !model.cls.value.isModel
      ensures r.Err? ==> KeyTarget(old(model), models) == Err(r.error) && hashKeyName == old(hashKeyName)
      ensures r.Ok? ==> model.cls.Some? && r.value == FirstHashKey(model.cls.value.attributes) && hashKeyName == r.value
    {
      if hashKeyName.Some? && hashKeyName.value != "" {
        return Ok(hashKeyName);
      }
      var m := Model(models);
      if m.None? {
        return Err(TypeError("issubclass() arg 1 must be a class"));
      }
      r := reg.GetKeyName(m.value);
      if r.Ok? {
        hashKeyName := r.value;
      }
    }

    /** The key name and model both codecs start from: `getattr(model, None)` is a TypeError. */
    method KeyAndModel(models: seq<ModelClass>, reg: KeyRegistry.Registry)
      returns (r: Result<(string, ModelClass), Error>)
      requires Valid() && reg.Valid()
      modifies this`model, this`hashKeyName, reg
      ensures Valid() && reg.Valid()
      ensures ResolvedFrom(old(model), old(hashKeyName), old(reg.entries), models, reg)
      ensures r == KeyTarget(old(model), models)
    {
      var k := HashKeyName(models, reg);
      match k {
        case Err(e) => return Err(e);
        case Ok(None) => return Err(TypeError("attribute name must be string"));
        case Ok(Some(name)) => return Ok((name, model.cls.value));
      }
    }

    /** `OneToOne.serialize(model)`: the text of the record's key. */
    method SerializeOne(rec: Record, models: seq<ModelClass>, reg: KeyRegistry.Registry)
      returns (r: Result<string, Error>)
      requires Valid() && reg.Valid()
      modifies this`model, this`hashKeyName, reg
      ensures Valid() && reg.Valid()
      ensures ResolvedFrom(old(model), old(hashKeyName), old(reg.entries), models, reg)
      ensures r == match KeyTarget(old(model), models)
        case Err(e) => Err(e)
        case Ok((name, _)) => SerializeOneKey(name, rec)
    {
      var km := KeyAndModel(models, reg);
      match km {
        case Err(e) => return Err(e);
        case Ok((name, _)) => return SerializeOneKey(name, rec);
      }
    }

    /**
     * `OneToOne.deserialize(hash_key)`: the key rebuilt from its text, then
     * an unresolved proxy when lazy (no fetch), or `model.get(key)` (one fetch).
     */
    method DeserializeOne(hashKey: string, models: seq<ModelClass>, reg: KeyRegistry.Registry, store: Storage.Store)
      returns (r: Result<Deserialized, Error>)
      requires Valid() && reg.Valid()
      modifies this`model, this`hashKeyName, reg, store`gets
      ensures Valid() && reg.Valid()
      ensures ResolvedFrom(old(model), old(hashKeyName), old(reg.entries), models, reg)
      ensures var kt := KeyTarget(old(model), models);
        store.gets == old(store.gets) +
          (if !lazy && kt.Ok? && DeserializeOneKey(kt.value.1, kt.value.0, hashKey).Ok? then 1 else 0)
      ensures r == match KeyTarget(old(model), models)
        case Err(e) => Err(e)
        case Ok((name, m)) =>
          match DeserializeOneKey(m, name, hashKey)
          case Err(e) => Err(e)
          case Ok(k) =>
            if lazy then Ok(LazyOne(LazyRef(name, k, m)))
            else match store.Stored(m, k)
              case Some(rec) => Ok(FetchedOne(rec))
              case None => Err(DoesNotExist(k))
    {
      var km := KeyAndModel(models, reg);
      if km.Err? {
        return Err(km.error);
      }
      var (name, m) := km.value;
      var key := DeserializeOneKey(m, name, hashKey);
      if key.Err? {
        return Err(key.error);
      }
      if lazy {
        return Ok(LazyOne(LazyRef(name, key.value, m)));
      }
      var fetched := store.Get(m, key.value);
      match fetched {
        case Err(e) => return Err(e);
        case Ok(rec) => return Ok(FetchedOne(rec));
      }
    }

    /** `OneToMany.serialize(models)`, in its corrected form (see `SerializeManyAsWritten`). */
    method SerializeManyKeys(records: seq<Record>, models: seq<ModelClass>, reg: KeyRegistry.Registry)
      returns (r: Result<seq<Value>, Error>)
      requires Valid() && reg.Valid()
      modifies this`model, this`hashKeyName, reg
      ensures Valid() && reg.Valid()
      ensures ResolvedFrom(old(model), old(hashKeyName), old(reg.entries), models, reg)
      ensures r == match KeyTarget(old(model), models)
        case Err(e) => Err(e)
        case Ok((name, m)) => SerializeMany(m, name, records)
    {
      var km := KeyAndModel(models, reg);
      if km.Err? {
        return Err(km.error);
      }
      var (name, m) := km.value;
      r := SerializeMany(m, name, records);
    }

    /**
     * `OneToMany.deserialize(hash_keys)`. Tagged maps are decoded first,
     * before anything about the target is read; a lazy result then reads
     * `hash_key_name` and `model`, an eager one only `model.batch_get`. Any
     * other list first looks up `getattr(self.model, self.hash_key_name)`.
     * The eager result is one `batch_get` of all the keys, whose answer
     * holds exactly the stored records of those keys.
     */
    method DeserializeManyValue(hashKeys: seq<Value>, models: seq<ModelClass>, reg: KeyRegistry.Registry, store: Storage.Store)
      returns (r: Result<Deserialized, Error>)
      requires Valid() && reg.Valid()
      modifies this`model, this`hashKeyName, reg, store`batchGets
      ensures Valid() && reg.Valid()
      ensures IsTagged(hashKeys) && DecodeTagged(hashKeys).Err? ==>
        r == Err(DecodeTagged(hashKeys).error) && model == old(model) && hashKeyName == old(hashKeyName)
        && reg.entries == old(reg.entries) && store.batchGets == old(store.batchGets)
      ensures IsTagged(hashKeys) && DecodeTagged(hashKeys).Ok? && lazy ==>
        ResolvedFrom(old(model), old(hashKeyName), old(reg.entries), models, reg)
        && store.batchGets == old(store.batchGets)
        && r == LazyTagged(old(model), models, DecodeTagged(hashKeys).value)
      ensures IsTagged(hashKeys) && DecodeTagged(hashKeys).Ok? && !lazy ==>
        var t := Target(old(model), models);
        model == Class(t) && hashKeyName == old(hashKeyName) && reg.entries == old(reg.entries)
        && (t.None? || !t.value.isModel ==>
          r == Err(AttributeError("batch_get")) && store.batchGets == old(store.batchGets))
        && (t.Some? && t.value.isModel ==> (store.batchGets == old(store.batchGets) + 1
          && r.Ok? && r.value.FetchedMany? && BatchOf(r.value.records, store, t.value, DecodeTagged(hashKeys).value)))
      ensures !IsTagged(hashKeys) ==> ResolvedFrom(old(model), old(hashKeyName), old(reg.entries), models, reg)
      ensures !IsTagged(hashKeys) ==> var kt := KeyTarget(old(model), models);
        store.batchGets == old(store.batchGets) +
          (if !lazy && kt.Ok? && DeserializeManyKeys(kt.value.1, kt.value.0, hashKeys).Ok? then 1 else 0)
      ensures !IsTagged(hashKeys) ==> var kt := KeyTarget(old(model), models);
        (r.Ok? <==> kt.Ok? && DeserializeManyKeys(kt.value.1, kt.value.0, hashKeys).Ok?) &&
        (kt.Err? ==> r == Err(kt.error)) &&
        (kt.Ok? && DeserializeManyKeys(kt.value.1, kt.value.0, hashKeys).Err? ==>
          r == Err(DeserializeManyKeys(kt.value.1, kt.value.0, hashKeys).error))
      ensures !IsTagged(hashKeys) && r.Ok? ==>
        var (keyName, m) := KeyTarget(old(model), models).value;
        (lazy ==> r.value == LazyMany(ResultList(keyName, m, hashKeys))) &&
        (!lazy ==> r.value.FetchedMany? && BatchOf(r.value.records, store, m, hashKeys))
    {
      if IsTagged(hashKeys) {
        var keys := DecodeTagged(hashKeys);
        if keys.Err? {
          return Err(keys.error);
        }
        if lazy {
          var k := HashKeyName(models, reg);
          if k.Err? {
            return Err(k.error);
          }
          var m := Model(models);
          match k.value {
            case Some(name) => return Ok(LazyMany(ResultList(name, m.value, keys.value)));
            case None => return Ok(LazyManyUnkeyed(m.value, keys.value));
          }
        }
        var m := Model(models);
        if m.None? || !m.value.isModel {
          return Err(AttributeError("batch_get"));
        }
        var batch := store.BatchGet(m.value, keys.value);
        return Ok(FetchedMany(batch));
      }
      var km := KeyAndModel(models, reg);
      if km.Err? {
        return Err(km.error);
      }
      var (name, m) := km.value;
      var keys := DeserializeManyKeys(m, name, hashKeys);
      if keys.Err? {
        return Err(keys.error);
      }
      if lazy {
        return Ok(LazyMany(ResultList(name, m, keys.value)));
      }
      var batch := store.BatchGet(m, keys.value);
      return Ok(FetchedMany(batch));
    }
  }
}
