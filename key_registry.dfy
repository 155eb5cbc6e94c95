/**
 * `get_key_name` and `MODEL_KEY_REGISTRY` (graphene_pynamodb/utils.py): the
 * process-wide memo from a model class to the name of its hash-key attribute.
 */
module KeyRegistry {
  import opened Wrappers
  import opened Schema

  /**
   * The registry after `get_key_name(m)`: a Model class not yet cached and
   * with a hash key gains its entry; anything else leaves it as it was.
   */
  function Memo(entries: map<ModelClass, string>, m: ModelClass): (r: map<ModelClass, string>)
    ensures m.isModel && FirstHashKey(m.attributes).Some? ==> m in r
    ensures m in r && m !in entries ==> FirstHashKey(m.attributes) == Some(r[m])
    ensures forall m' :: m' != m ==> (m' in r <==> m' in entries)
    ensures forall m' :: m' in entries ==> m' in r && r[m'] == entries[m']
  {
    if !m.isModel || m in entries || FirstHashKey(m.attributes).None? then entries
    else entries[m := FirstHashKey(m.attributes).value]
  }

  class Registry {
    /** `MODEL_KEY_REGISTRY`: model class to the attribute name of its hash key. */
    var entries: map<ModelClass, string>
    /** How many times an attribute scan has run; the memo is what keeps it low. */
    ghost var scans: nat

    /** Every cached name is the one a scan of that model would find. */
    ghost predicate Valid()
      reads this
    {
      forall m :: m in entries ==> m.isModel && FirstHashKey(m.attributes) == Some(entries[m])
    }

    constructor ()
      ensures Valid() && entries == map[] && scans == 0
    {
      entries := map[];
      scans := 0;
    }

    /**
     * `get_key_name(model)`: TypeError for a class that is not a Model;
     * the cached name when there is one, without scanning; otherwise the
     * first hash-key attribute's name, cached, or `None` (nothing cached)
     * when the model declares no hash key.
     */
    method GetKeyName(m: ModelClass) returns (r: Result<Option<string>, Error>)
      requires Valid()
      modifies this
      ensures Valid()
      ensures !m.isModel ==> r == Err(TypeError(m.name)) && entries == old(entries) && scans == old(scans)
      ensures m.isModel ==> r == Ok(FirstHashKey(m.attributes))
      ensures m in old(entries) ==> r == Ok(Some(old(entries)[m])) && entries == old(entries) && scans == old(scans)
      ensures m.isModel && m !in old(entries) ==> scans == old(scans) + 1
      ensures m.isModel && m !in old(entries) ==>
        entries == (if FirstHashKey(m.attributes).Some? then old(entries)[m := FirstHashKey(m.attributes).value]
                    else old(entries))
      ensures entries == Memo(old(entries), m)
    {
      if !m.isModel {
        return Err(TypeError(m.name));
      }
      if m in entries {
        return Ok(Some(entries[m]));
      }
      scans := scans + 1;
      var attrs := m.attributes;
      var i := 0;
      while i < |attrs|
        invariant 0 <= i <= |attrs|
        invariant FirstHashKey(attrs[i..]) == FirstHashKey(attrs)
        invariant entries == old(entries)
      {
        assert attrs[i..][1..] == attrs[i + 1..];
        if attrs[i].isHashKey {
          entries := entries[m := attrs[i].name];
          return Ok(Some(attrs[i].name));
        }
        i := i + 1;
      }
      return Ok(None);
    }
  }

  /** Asking twice gives the same answer, and the second call neither scans nor changes the registry. */
  method KeyNameIdempotent(reg: Registry, m: ModelClass)
    returns (first: Result<Option<string>, Error>, second: Result<Option<string>, Error>)
    requires reg.Valid()
    modifies reg
    ensures reg.Valid()
    ensures first == second
    ensures m.isModel && FirstHashKey(m.attributes).Some? ==>
      reg.scans == old(reg.scans) + (if m in old(reg.entries) then 0 else 1)
  {
    first := reg.GetKeyName(m);
    second := reg.GetKeyName(m);
  }
}
