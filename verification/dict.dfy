/**
 A JavaScript plain object used as a dictionary from string keys: the keys
 are distinct and enumerate (`Object.keys`, `Object.entries`) in the order in
 which they were first assigned; assigning to an existing key keeps its place.
 The report code uses such objects for handler-loader maps, resolved handler
 maps and the JUnit sink's per-file problem lists.
 */
module Dict {
  import opened Types
  import opened Text

  datatype Entry<V> = Entry(key: string, value: V)

  datatype Dict<V> = Dict(entries: seq<Entry<V>>)

  function Keys<V>(d: Dict<V>): (ks: seq<string>)
    ensures |ks| == |d.entries|
    ensures forall i :: 0 <= i < |ks| ==> ks[i] == d.entries[i].key
  {
    seq(|d.entries|, i requires 0 <= i < |d.entries| => d.entries[i].key)
  }

  /** Every key occurs once: what an object's own property list guarantees. */
  predicate Valid<V>(d: Dict<V>) {
    Distinct(Keys(d))
  }

  /** Property lookup `d[k]`; `None` stands for `undefined`. */
  function Get<V>(d: Dict<V>, k: string): (r: Option<V>)
    ensures r.Some? <==> k in Keys(d)
    ensures r.Some? ==> exists i :: 0 <= i < |d.entries| && d.entries[i] == Entry(k, r.value)
    decreases |d.entries|
  {
    if |d.entries| == 0 then None
    else if d.entries[0].key == k then Some(d.entries[0].value)
    else
      var r := Get(Dict(d.entries[1..]), k);
      assert Keys(d) == [d.entries[0].key] + Keys(Dict(d.entries[1..]));
      r
  }

  /** Lookup at a key whose position is known. */
  lemma GetAt<V>(d: Dict<V>, i: nat)
    requires Valid(d)
    requires i < |d.entries|
    ensures Get(d, d.entries[i].key) == Some(d.entries[i].value)
  {
    var k := d.entries[i].key;
    var r := Get(d, k);
    assert k == Keys(d)[i];
    var j :| 0 <= j < |d.entries| && d.entries[j] == Entry(k, r.value);
    assert Keys(d)[j] == k;
  }

  function PutEntries<V>(es: seq<Entry<V>>, k: string, v: V): seq<Entry<V>>
  {
    if |es| == 0 then [Entry(k, v)]
    else if es[0].key == k then [Entry(k, v)] + es[1..]
    else [es[0]] + PutEntries(es[1..], k, v)
  }

  /**
   Assignment `d[k] = v`: afterwards `k` maps to `v`, every other key keeps
   its value, a new key is appended to the enumeration order and an existing
   key keeps its place.
   */
  function Put<V>(d: Dict<V>, k: string, v: V): (r: Dict<V>)
    requires Valid(d)
    ensures Valid(r)
    ensures Get(r, k) == Some(v)
    ensures forall k' :: k' != k ==> Get(r, k') == Get(d, k')
    ensures k in Keys(d) ==> Keys(r) == Keys(d)
    ensures k !in Keys(d) ==> Keys(r) == Keys(d) + [k]
  {
    PutEntriesFacts(d.entries, k, v);
    Dict(PutEntries(d.entries, k, v))
  }

  lemma {:induction false} PutEntriesFacts<V>(es: seq<Entry<V>>, k: string, v: V)
    requires Valid(Dict(es))
    ensures Valid(Dict(PutEntries(es, k, v)))
    ensures Get(Dict(PutEntries(es, k, v)), k) == Some(v)
    ensures forall k' :: k' != k ==> Get(Dict(PutEntries(es, k, v)), k') == Get(Dict(es), k')
    ensures k in Keys(Dict(es)) ==> Keys(Dict(PutEntries(es, k, v))) == Keys(Dict(es))
    ensures k !in Keys(Dict(es)) ==> Keys(Dict(PutEntries(es, k, v))) == Keys(Dict(es)) + [k]
  {
    PutEntriesKeys(es, k, v);
    PutEntriesGet(es, k, v);
    var ks := Keys(Dict(es));
    if k !in ks {
      var rs := ks + [k];
      forall i, j | 0 <= i < j < |rs|
        ensures rs[i] != rs[j]
      {
        if j == |ks| {
          assert rs[i] == ks[i];
        } else {
          assert rs[i] == ks[i] && rs[j] == ks[j];
        }
      }
    }
  }

  lemma KeysCons<V>(e: Entry<V>, es: seq<Entry<V>>)
    ensures Keys(Dict([e] + es)) == [e.key] + Keys(Dict(es))
  {
  }

  lemma {:induction false} PutEntriesKeys<V>(es: seq<Entry<V>>, k: string, v: V)
    ensures k in Keys(Dict(es)) ==> Keys(Dict(PutEntries(es, k, v))) == Keys(Dict(es))
    ensures k !in Keys(Dict(es)) ==> Keys(Dict(PutEntries(es, k, v))) == Keys(Dict(es)) + [k]
    decreases |es|
  {
    if |es| == 0 {
    } else {
      KeysCons(es[0], es[1..]);
      assert es == [es[0]] + es[1..];
      if es[0].key == k {
        KeysCons(Entry(k, v), es[1..]);
      } else {
        PutEntriesKeys(es[1..], k, v);
        KeysCons(es[0], PutEntries(es[1..], k, v));
      }
    }
  }

  lemma {:induction false} PutEntriesGet<V>(es: seq<Entry<V>>, k: string, v: V)
    ensures Get(Dict(PutEntries(es, k, v)), k) == Some(v)
    ensures forall k' :: k' != k ==> Get(Dict(PutEntries(es, k, v)), k') == Get(Dict(es), k')
    decreases |es|
  {
    var r := PutEntries(es, k, v);
    if |es| == 0 {
      forall k' | k' != k
        ensures Get(Dict(r), k') == Get(Dict(es), k')
      {
        assert Get(Dict(r), k') == Get(Dict(r[1..]), k');
        assert r[1..] == [];
      }
    } else if es[0].key == k {
      forall k' | k' != k
        ensures Get(Dict(r), k') == Get(Dict(es), k')
      {
        assert r[1..] == es[1..];
      }
    } else {
      PutEntriesGet(es[1..], k, v);
      assert r[1..] == PutEntries(es[1..], k, v);
    }
  }
}
