/**
 * Python dictionary semantics: building a dict from key/value pairs
 * (later pairs overwrite earlier ones), and the insertion-ordered dict that a
 * response's headers are kept in.
 */
module Dicts {
  import opened Wrappers

  // ---------------------------------------------------------------------------
  // A dict filled by a loop of `d[k] = v` assignments, and dict(pairs)

  /**
   * The dict a loop over `items` builds when it skips the items `entry`
   * rejects and assigns `d[k] = v` for the pair `entry` gives for each other one.
   */
  function LoopDict<A, K(==), V>(items: seq<A>, entry: A -> Option<(K, V)>): map<K, V> {
    if items == [] then map[]
    else
      var d := LoopDict(items[..|items| - 1], entry);
      match entry(items[|items| - 1])
      case None => d
      case Some(kv) => d[kv.0 := kv.1]
  }

  /** One more loop iteration is one more assignment, or none for a skipped item. */
  lemma LoopDictSnoc<A, K, V>(items: seq<A>, x: A, entry: A -> Option<(K, V)>)
    ensures LoopDict(items + [x], entry) ==
      match entry(x) case None => LoopDict(items, entry) case Some(kv) => LoopDict(items, entry)[kv.0 := kv.1]
  {
    assert (items + [x])[..|items|] == items;
  }

  /** The dict after the first `i + 1` items is one more step from the dict after `i`. */
  lemma LoopDictPrefix<A, K, V>(items: seq<A>, i: nat, entry: A -> Option<(K, V)>)
    requires i < |items|
    ensures LoopDict(items[..i + 1], entry) ==
      match entry(items[i]) case None => LoopDict(items[..i], entry) case Some(kv) => LoopDict(items[..i], entry)[kv.0 := kv.1]
  {
    assert items[..i + 1] == items[..i] + [items[i]];
    LoopDictSnoc(items[..i], items[i], entry);
  }

  /** A loop whose every item is accepted with a known pair builds `dict` of those pairs. */
  lemma {:induction false} LoopDictAllAccepted<A, K, V>(items: seq<A>, entry: A -> Option<(K, V)>, pairs: seq<(K, V)>)
    requires |items| == |pairs|
    requires forall i :: 0 <= i < |items| ==> entry(items[i]) == Some(pairs[i])
    ensures LoopDict(items, entry) == LoopDict(pairs, Accept)
    decreases |items|
  {
    if items != [] {
      var n := |items| - 1;
      assert forall i :: 0 <= i < n ==> items[..n][i] == items[i] && pairs[..n][i] == pairs[i];
      LoopDictAllAccepted(items[..n], entry, pairs[..n]);
    }
  }

  /** A key that no accepted item produces is absent. */
  lemma {:induction false} LoopDictAbsent<A, K, V>(items: seq<A>, entry: A -> Option<(K, V)>, k: K)
    requires forall j :: 0 <= j < |items| && entry(items[j]).Some? ==> entry(items[j]).value.0 != k
    ensures k !in LoopDict(items, entry)
    decreases |items|
  {
    if items != [] {
      var init := items[..|items| - 1];
      assert forall j :: 0 <= j < |init| ==> init[j] == items[j];
      LoopDictAbsent(init, entry, k);
    }
  }

  /** A key maps to the value from the last accepted item that produces it. */
  lemma {:induction false} LoopDictLastWins<A, K, V>(items: seq<A>, entry: A -> Option<(K, V)>, i: nat)
    requires i < |items| && entry(items[i]).Some?
    requires forall j :: i < j < |items| && entry(items[j]).Some? ==> entry(items[j]).value.0 != entry(items[i]).value.0
    ensures entry(items[i]).value.0 in LoopDict(items, entry)
    ensures LoopDict(items, entry)[entry(items[i]).value.0] == entry(items[i]).value.1
    decreases |items|
  {
    if i < |items| - 1 {
      var init := items[..|items| - 1];
      assert init[i] == items[i];
      forall j | i < j < |init| && entry(init[j]).Some?
        ensures entry(init[j]).value.0 != entry(init[i]).value.0
      {
        assert init[j] == items[j];
      }
      LoopDictLastWins(init, entry, i);
    }
  }

  /** Every key of the dict comes from some accepted item. */
  lemma {:induction false} LoopDictKeys<A, K, V>(items: seq<A>, entry: A -> Option<(K, V)>, k: K)
    requires k in LoopDict(items, entry)
    ensures exists j :: 0 <= j < |items| && entry(items[j]).Some? && entry(items[j]).value.0 == k
    decreases |items|
  {
    var init := items[..|items| - 1];
    var last := items[|items| - 1];
    if entry(last).Some? && entry(last).value.0 == k {
      assert items[|items| - 1] == last;
    } else {
      LoopDictKeys(init, entry, k);
      var j :| 0 <= j < |init| && entry(init[j]).Some? && entry(init[j]).value.0 == k;
      assert items[j] == init[j];
    }
  }

  function Accept<K, V>(kv: (K, V)): Option<(K, V)> {
    Some(kv)
  }

  /** `dict(pairs)`: the pairs assigned in order, so the last pair for a key wins. */
  function DictOf<K(==), V>(pairs: seq<(K, V)>): map<K, V> {
    LoopDict(pairs, Accept)
  }

  /** `dict([])` is empty and `dict([(k, v)])` maps `k` alone, to `v`. */
  lemma DictOfShort<K, V>(k: K, v: V)
    ensures DictOf<K, V>([]) == map[]
    ensures DictOf([(k, v)]) == map[k := v]
  {
    assert [(k, v)][..0] == [];
  }

  /** In `dict(pairs)` a key maps to the value of the last pair that carries it. */
  lemma DictOfLastWins<K, V>(pairs: seq<(K, V)>, i: nat)
    requires i < |pairs|
    requires forall j :: i < j < |pairs| ==> pairs[j].0 != pairs[i].0
    ensures pairs[i].0 in DictOf(pairs) && DictOf(pairs)[pairs[i].0] == pairs[i].1
  {
    LoopDictLastWins(pairs, Accept, i);
  }

  /** `dict(pairs)` has exactly the keys the pairs carry. */
  lemma DictOfKeys<K, V>(pairs: seq<(K, V)>, k: K)
    ensures k in DictOf(pairs) <==> exists j :: 0 <= j < |pairs| && pairs[j].0 == k
  {
    if k in DictOf(pairs) {
      LoopDictKeys(pairs, Accept, k);
    } else if exists j :: 0 <= j < |pairs| && pairs[j].0 == k {
      var j :| 0 <= j < |pairs| && pairs[j].0 == k;
      var i := LastWith(pairs, k, j);
      DictOfLastWins(pairs, i);
    }
  }

  /** The last position at or after `j` whose pair carries key `k`. */
  function LastWith<K(==), V>(pairs: seq<(K, V)>, k: K, j: nat): (i: nat)
    requires j < |pairs| && pairs[j].0 == k
    ensures j <= i < |pairs| && pairs[i].0 == k
    ensures forall m :: i < m < |pairs| ==> pairs[m].0 != k
    decreases |pairs| - j
  {
    if exists m :: j < m < |pairs| && pairs[m].0 == k then
      var m :| j < m < |pairs| && pairs[m].0 == k;
      LastWith(pairs, k, m)
    else j
  }

  // ---------------------------------------------------------------------------
  // An insertion-ordered dict, as a list of entries with distinct keys

  /** No key occurs twice. */
  predicate UniqueKeys<K(==), V>(entries: seq<(K, V)>) {
    forall i, j :: 0 <= i < j < |entries| ==> entries[i].0 != entries[j].0
  }

  /** The position of the entry for `k`, if any. */
  function IndexOfKey<K(==), V>(entries: seq<(K, V)>, k: K): (r: Option<nat>)
    ensures r.Some? ==> r.value < |entries| && entries[r.value].0 == k
    ensures r.Some? ==> forall j :: 0 <= j < r.value ==> entries[j].0 != k
    ensures r.None? ==> forall j :: 0 <= j < |entries| ==> entries[j].0 != k
  {
    if entries == [] then None
    else if entries[0].0 == k then Some(0)
    else match IndexOfKey(entries[1..], k)
      case None => None
      case Some(i) => Some(i + 1)
  }

  /** `d.get(k)`. */
  function Get<K(==), V>(entries: seq<(K, V)>, k: K): Option<V> {
    match IndexOfKey(entries, k)
    case None => None
    case Some(i) => Some(entries[i].1)
  }

  /**
   * `d[k] = v`: an existing entry keeps its position and gets the new value;
   * a new key is appended at the end.
   */
  function Put<K(==, !new), V>(entries: seq<(K, V)>, k: K, v: V): (r: seq<(K, V)>)
    requires UniqueKeys(entries)
    ensures UniqueKeys(r)
    ensures Get(r, k) == Some(v)
    ensures forall k' :: k' != k ==> Get(r, k') == Get(entries, k')
    ensures Get(entries, k).Some? ==> |r| == |entries| && forall j :: 0 <= j < |r| ==> r[j].0 == entries[j].0
    ensures Get(entries, k).None? ==> r == entries + [(k, v)]
  {
    match IndexOfKey(entries, k)
    case None =>
      var r := entries + [(k, v)];
      assert IndexOfKey(r, k) == Some(|entries|) by { IndexOfKeyAppend(entries, k, v, k); }
      forall k' | k' != k
        ensures Get(r, k') == Get(entries, k')
      {
        IndexOfKeyAppend(entries, k, v, k');
      }
      r
    case Some(i) =>
      var r := entries[i := (k, v)];
      forall k' ensures IndexOfKey(r, k') == IndexOfKey(entries, k') {
        IndexOfKeySameKeys(entries, r, k');
      }
      r
  }

  /** `d.setdefault(k, v)` for its effect: adds `(k, v)` at the end only when `k` is absent. */
  function SetDefault<K(==, !new), V>(entries: seq<(K, V)>, k: K, v: V): (r: seq<(K, V)>)
    requires UniqueKeys(entries)
    ensures UniqueKeys(r)
    ensures Get(entries, k).Some? ==> r == entries
    ensures Get(entries, k).None? ==> r == entries + [(k, v)] && Get(r, k) == Some(v)
    ensures forall k' :: k' != k ==> Get(r, k') == Get(entries, k')
  {
    if Get(entries, k).Some? then entries else Put(entries, k, v)
  }

  /** Appending an entry for a new key does not move the existing ones. */
  lemma {:induction false} IndexOfKeyAppend<K, V>(entries: seq<(K, V)>, k: K, v: V, q: K)
    requires IndexOfKey(entries, k).None?
    ensures IndexOfKey(entries + [(k, v)], q) == if q == k then Some(|entries|) else IndexOfKey(entries, q)
    decreases |entries|
  {
    if entries != [] {
      assert (entries + [(k, v)])[1..] == entries[1..] + [(k, v)];
      IndexOfKeyAppend(entries[1..], k, v, q);
    }
  }

  /** Lists with the same keys in the same order place every key alike. */
  lemma {:induction false} IndexOfKeySameKeys<K, V>(a: seq<(K, V)>, b: seq<(K, V)>, q: K)
    requires |a| == |b| && forall j :: 0 <= j < |a| ==> a[j].0 == b[j].0
    ensures IndexOfKey(a, q) == IndexOfKey(b, q)
    decreases |a|
  {
    if a != [] {
      IndexOfKeySameKeys(a[1..], b[1..], q);
    }
  }
}
