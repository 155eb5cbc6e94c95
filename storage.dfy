/**
 * The storage collaborator, reduced to what the binding layer calls:
 * `Model.get(key)` and `Model.batch_get(keys)` over a fixed key-to-record
 * table per model, with a counter for each kind of call.
 */
module Storage {
  import opened Wrappers
  import opened Schema

  class Store {
    /** The stored records of each model, by hash-key value. */
    const tables: map<ModelClass, map<Value, Record>>
    /** Number of `Model.get` calls so far. */
    var gets: nat
    /** Number of `Model.batch_get` calls so far. */
    var batchGets: nat

    /** Every stored record is an instance of its model and has its key set under the model's key name. */
    ghost predicate Valid() {
      forall m, k :: m in tables && k in tables[m] ==>
        IsInstance(tables[m][k], m) && FirstHashKey(m.attributes).Some?
        && FirstHashKey(m.attributes).value in tables[m][k].values
        && tables[m][k].values[FirstHashKey(m.attributes).value] == k
    }

    function Stored(m: ModelClass, k: Value): Option<Record> {
      if m in tables && k in tables[m] then Some(tables[m][k]) else None
    }

    constructor (tables: map<ModelClass, map<Value, Record>>)
      ensures this.tables == tables && gets == 0 && batchGets == 0
    {
      this.tables := tables;
      gets, batchGets := 0, 0;
    }

    /** `Model.get(key)`: one point fetch; `DoesNotExist` when nothing is stored under `key`. */
    method Get(m: ModelClass, key: Value) returns (r: Result<Record, Error>)
      modifies this`gets
      ensures gets == old(gets) + 1
      ensures r == match Stored(m, key) case Some(rec) => Ok(rec) case None => Err(DoesNotExist(key))
    {
      gets := gets + 1;
      if m in tables && key in tables[m] {
        r := Ok(tables[m][key]);
      } else {
        r := Err(DoesNotExist(key));
      }
    }

    /**
     * `Model.batch_get(keys)`: one batch fetch. Callers may rely only on the
     * contract: every record returned is stored under one of the keys, and
     * every key that has a record comes back; the order is unspecified and
     * missing keys are silently absent.
     */
    method BatchGet(m: ModelClass, keys: seq<Value>) returns (rs: seq<Record>)
      modifies this`batchGets
      ensures batchGets == old(batchGets) + 1
      ensures forall r :: r in rs ==> exists k :: k in keys && Stored(m, k) == Some(r)
      ensures forall k :: k in keys && Stored(m, k).Some? ==> Stored(m, k).value in rs
    {
      batchGets := batchGets + 1;
      rs := [];
      var n := 0;
      while n < |keys|
        invariant 0 <= n <= |keys|
        invariant forall r :: r in rs ==> exists k :: k in keys[..n] && Stored(m, k) == Some(r)
        invariant forall k :: k in keys[..n] && Stored(m, k).Some? ==> Stored(m, k).value in rs
      {
        assert keys[..n + 1] == keys[..n] + [keys[n]];
        var found := Stored(m, keys[n]);
        if found.Some? {
          rs := rs + [found.value];
        }
        n := n + 1;
      }
      assert keys[..n] == keys;
    }
  }
}
