/**
 * Python's ordering of `str` values (code point by code point, a proper
 * prefix first) and association lists kept strictly sorted by that order,
 * which is what `OrderedDict(sorted(d.items()))` produces from a dict.
 */
module TextOrder {
  import opened Wrappers

  /** `a < b` on Python strings. */
  predicate Less(a: string, b: string)
    decreases |a|
  {
    if |a| == 0 then |b| > 0
    else if |b| == 0 then false
    else if a[0] == b[0] then Less(a[1..], b[1..])
    else a[0] < b[0]
  }

  lemma {:induction false} LessIrreflexive(a: string)
    ensures !Less(a, a)
    decreases |a|
  {
    if |a| > 0 { LessIrreflexive(a[1..]); }
  }

  lemma {:induction false} LessTransitive(a: string, b: string, c: string)
    requires Less(a, b) && Less(b, c)
    ensures Less(a, c)
    decreases |a|
  {
    if |a| > 0 && |b| > 0 && |c| > 0 && a[0] == b[0] && b[0] == c[0] {
      LessTransitive(a[1..], b[1..], c[1..]);
    }
  }

  lemma {:induction false} LessTotal(a: string, b: string)
    ensures a == b || Less(a, b) || Less(b, a)
    decreases |a|
  {
    if |a| > 0 && |b| > 0 && a[0] == b[0] {
      LessTotal(a[1..], b[1..]);
      if a[1..] == b[1..] {
        assert a == [a[0]] + a[1..] && b == [b[0]] + b[1..];
      }
    }
  }

  lemma LessAsymmetric(a: string, b: string)
    requires Less(a, b)
    ensures !Less(b, a)
  {
    if Less(b, a) {
      LessTransitive(a, b, a);
      LessIrreflexive(a);
    }
  }

  /** Keys strictly ascending, hence also pairwise distinct. */
  predicate StrictlySorted<V>(s: seq<(string, V)>) {
    forall i, j :: 0 <= i < j < |s| ==> Less(s[i].0, s[j].0)
  }

  function KeySet<V>(s: seq<(string, V)>): set<string> {
    set i | 0 <= i < |s| :: s[i].0
  }

  /** The value under `k`, where `k` occurs at most once in a sorted list. */
  function Lookup<V>(s: seq<(string, V)>, k: string): Option<V> {
    if |s| == 0 then None
    else if s[0].0 == k then Some(s[0].1)
    else Lookup(s[1..], k)
  }

  /** `d[k] = v` on a sorted association list: insert in place, or replace the value already there. */
  function Insert<V>(s: seq<(string, V)>, k: string, v: V): seq<(string, V)> {
    if |s| == 0 then [(k, v)]
    else if s[0].0 == k then [(k, v)] + s[1..]
    else if Less(k, s[0].0) then [(k, v)] + s
    else [s[0]] + Insert(s[1..], k, v)
  }

  lemma {:induction false} LookupAbsent<V>(s: seq<(string, V)>, k: string)
    ensures Lookup(s, k).None? <==> k !in KeySet(s)
  {
    if |s| > 0 {
      LookupAbsent(s[1..], k);
      KeySetCons(s);
    }
  }

  lemma SortedTail<V>(s: seq<(string, V)>)
    requires StrictlySorted(s) && |s| > 0
    ensures StrictlySorted(s[1..])
    ensures forall i :: 0 <= i < |s[1..]| ==> Less(s[0].0, s[1..][i].0)
  {
    forall i | 0 <= i < |s[1..]| ensures Less(s[0].0, s[1..][i].0) {
      assert s[1..][i] == s[i + 1];
    }
  }

  /** Prepending a key below every key of a sorted list keeps it sorted. */
  lemma SortedCons<V>(x: (string, V), s: seq<(string, V)>)
    requires StrictlySorted(s)
    requires forall i :: 0 <= i < |s| ==> Less(x.0, s[i].0)
    ensures StrictlySorted([x] + s)
  {
    var t := [x] + s;
    forall i, j | 0 <= i < j < |t| ensures Less(t[i].0, t[j].0) {
      if i > 0 { assert t[i] == s[i - 1] && t[j] == s[j - 1]; }
      else { assert t[j] == s[j - 1]; }
    }
  }

  /**
   * Inserting into a strictly sorted list keeps it strictly sorted, adds `k`
   * to the keys, maps `k` to `v` and leaves every other key's value alone.
   */
  lemma {:induction false} InsertSpec<V>(s: seq<(string, V)>, k: string, v: V)
    requires StrictlySorted(s)
    ensures StrictlySorted(Insert(s, k, v))
    ensures KeySet(Insert(s, k, v)) == KeySet(s) + {k}
    ensures Lookup(Insert(s, k, v), k) == Some(v)
    ensures forall k' :: k' != k ==> Lookup(Insert(s, k, v), k') == Lookup(s, k')
    ensures |Insert(s, k, v)| > 0 && (Insert(s, k, v)[0].0 == k || (|s| > 0 && Insert(s, k, v)[0] == s[0]))
  {
    var r := Insert(s, k, v);
    if |s| == 0 {
      assert KeySet(r) == {k} by { assert r[0].0 == k; }
    } else {
      SortedTail(s);
      KeySetCons(s);
      if s[0].0 == k {
        assert r[1..] == s[1..];
        SortedCons((k, v), s[1..]);
        KeySetCons(r);
      } else if Less(k, s[0].0) {
        forall i | 0 <= i < |s| ensures Less(k, s[i].0) {
          if i > 0 { assert s[1..][i - 1] == s[i]; LessTransitive(k, s[0].0, s[i].0); }
        }
        SortedCons((k, v), s);
        assert r[1..] == s;
        KeySetCons(r);
      } else {
        InsertSpec(s[1..], k, v);
        var t := Insert(s[1..], k, v);
        LessTotal(k, s[0].0);
        forall i | 0 <= i < |t| ensures Less(s[0].0, t[i].0) {
          if t[i].0 == k {
          } else {
            assert t[i].0 in KeySet(t);
            assert t[i].0 in KeySet(s[1..]);
            var j :| 0 <= j < |s[1..]| && s[1..][j].0 == t[i].0;
          }
        }
        SortedCons(s[0], t);
        assert r[1..] == t;
        KeySetCons(r);
      }
    }
  }

  lemma KeySetCons<V>(s: seq<(string, V)>)
    requires |s| > 0
    ensures KeySet(s) == {s[0].0} + KeySet(s[1..])
  {
    forall x ensures x in KeySet(s) <==> x in {s[0].0} + KeySet(s[1..]) {
      if x in KeySet(s) {
        var i :| 0 <= i < |s| && s[i].0 == x;
        if i > 0 { assert s[1..][i - 1].0 == x; }
      }
      if x in KeySet(s[1..]) {
        var i :| 0 <= i < |s[1..]| && s[1..][i].0 == x;
        assert s[i + 1].0 == x;
      }
    }
  }
}
