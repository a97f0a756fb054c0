/**
 * Python's `dict`, which remembers insertion order, as a list of (key, value)
 * entries with distinct keys. `Put` is `d[k] = v`: an existing key keeps its
 * position, a new key goes to the end. `AppendTo` is `defaultdict(list)[k].append(x)`.
 */
module Dicts {
  import opened Wrappers

  type Dict<K, V> = seq<(K, V)>

  function Keys<K, V>(d: Dict<K, V>): (ks: seq<K>)
    ensures |ks| == |d|
    ensures forall i :: 0 <= i < |d| ==> ks[i] == d[i].0
  {
    seq(|d|, i requires 0 <= i < |d| => d[i].0)
  }

  ghost predicate DistinctKeys<K, V>(d: Dict<K, V>) {
    forall i, j :: 0 <= i < j < |d| ==> d[i].0 != d[j].0
  }

  /** Position of key `k`, or |d| when `k` is absent. */
  function Find<K(==), V>(d: Dict<K, V>, k: K): (i: nat)
    ensures i <= |d|
    ensures i < |d| ==> d[i].0 == k
    ensures forall j :: 0 <= j < i ==> d[j].0 != k
  {
    if d == [] then 0 else if d[0].0 == k then 0 else 1 + Find(d[1..], k)
  }

  /** `d.get(k)`. */
  function Get<K(==), V>(d: Dict<K, V>, k: K): Option<V>
  {
    var i := Find(d, k);
    if i < |d| then Some(d[i].1) else None
  }

  /** `d[k] = v`. */
  function Put<K(==), V>(d: Dict<K, V>, k: K, v: V): (r: Dict<K, V>)
  {
    var i := Find(d, k);
    if i < |d| then d[i := (k, v)] else d + [(k, v)]
  }

  /** `defaultdict(list)`: `d[k].append(x)`. */
  function AppendTo<K(==), V>(d: Dict<K, seq<V>>, k: K, x: V): Dict<K, seq<V>>
  {
    Put(d, k, Get(d, k).GetOr([]) + [x])
  }

  /** `d[k] = v` keeps the keys distinct and keeps their order, adding `k` at the end if new. */
  lemma PutKeys<K, V>(d: Dict<K, V>, k: K, v: V)
    requires DistinctKeys(d)
    ensures DistinctKeys(Put(d, k, v))
    ensures Keys(Put(d, k, v)) == if Find(d, k) < |d| then Keys(d) else Keys(d) + [k]
  {
    var r := Put(d, k, v);
    if Find(d, k) < |d| {
      assert Keys(r) == Keys(d);
      assert forall j :: 0 <= j < |r| ==> r[j].0 == d[j].0;
    } else {
      assert Keys(r) == Keys(d) + [k];
    }
  }

  /** After `d[k] = v`, `k` holds `v`. */
  lemma PutGet<K, V>(d: Dict<K, V>, k: K, v: V)
    ensures Get(Put(d, k, v), k) == Some(v)
  {
    var r := Put(d, k, v);
    var i := Find(d, k);
    if i < |d| {
      FindUnique(r, k, i);
    } else {
      FindUnique(r, k, |d|);
    }
  }

  /** `d[k] = v` changes no other key. */
  lemma PutGetOther<K, V>(d: Dict<K, V>, k: K, v: V, k': K)
    requires k' != k
    ensures Get(Put(d, k, v), k') == Get(d, k')
  {
    var r := Put(d, k, v);
    if Find(d, k) < |d| {
      assert Keys(r) == Keys(d);
      FindByKeys(r, d, k');
    } else {
      var j := Find(d, k');
      if j < |d| { FindUnique(r, k', j); } else { FindUnique(r, k', |r|); }
    }
  }

  /** `d[k] = v` as a lookup: `k` gives `v`, every other key what it gave before. */
  lemma PutGetEither<K, V>(d: Dict<K, V>, k: K, v: V, q: K)
    ensures Get(Put(d, k, v), q) == if q == k then Some(v) else Get(d, q)
  {
    if q == k { PutGet(d, k, v); } else { PutGetOther(d, k, v, q); }
  }

  /** With distinct keys, the last entry is the only one for its key. */
  lemma GetLast<K, V>(d: Dict<K, V>, q: K)
    requires DistinctKeys(d) && d != []
    ensures DistinctKeys(d[..|d| - 1])
    ensures Get(d[..|d| - 1], d[|d| - 1].0) == None
    ensures Get(d, q) == if q == d[|d| - 1].0 then Some(d[|d| - 1].1) else Get(d[..|d| - 1], q)
  {
    var init := d[..|d| - 1];
    var (k, v) := d[|d| - 1];
    FindUnique(init, k, |init|);
    assert d == Put(init, k, v);
    PutGetEither(init, k, v, q);
  }

  /** `Find` looks only at the keys. */
  lemma {:induction false} FindByKeys<K, V>(d1: Dict<K, V>, d2: Dict<K, V>, k: K)
    requires Keys(d1) == Keys(d2)
    ensures Find(d1, k) == Find(d2, k)
  {
    if d1 != [] {
      assert d1[0].0 == Keys(d1)[0] == Keys(d2)[0] == d2[0].0;
      assert Keys(d1[1..]) == Keys(d1)[1..];
      assert Keys(d2[1..]) == Keys(d2)[1..];
      FindByKeys(d1[1..], d2[1..], k);
    }
  }

  /** In a dictionary where `k` sits at `i` (and nowhere before), `Find` returns `i`. */
  lemma {:induction false} FindUnique<K, V>(d: Dict<K, V>, k: K, i: nat)
    requires i <= |d|
    requires i < |d| ==> d[i].0 == k
    requires forall j :: 0 <= j < i ==> d[j].0 != k
    ensures Find(d, k) == i
  {
    if d != [] && i > 0 {
      FindUnique(d[1..], k, i - 1);
    }
  }

  /** A key is found exactly when it is among the keys. */
  lemma FindInKeys<K, V>(d: Dict<K, V>, k: K)
    ensures Find(d, k) < |d| <==> k in Keys(d)
  {
    if k in Keys(d) {
      var j :| 0 <= j < |d| && Keys(d)[j] == k;
      assert d[j].0 == k;
    }
  }

  // ---------------------------------------------------------------------
  // Grouping: `d = defaultdict(list); for k, v in kvs: d[k].append(v)`
  // ---------------------------------------------------------------------

  /** The elements of `ks`, each once, in order of first appearance. */
  function FirstSeen<K(==)>(ks: seq<K>): seq<K>
  {
    if ks == [] then []
    else
      var init := FirstSeen(ks[..|ks| - 1]);
      if ks[|ks| - 1] in init then init else init + [ks[|ks| - 1]]
  }

  /** `FirstSeen` lists every element of `ks` and nothing else, without repetition. */
  lemma {:induction false} FirstSeenMeaning<K>(ks: seq<K>)
    ensures forall k :: k in FirstSeen(ks) <==> k in ks
    ensures forall i, j :: 0 <= i < j < |FirstSeen(ks)| ==> FirstSeen(ks)[i] != FirstSeen(ks)[j]
  {
    if ks != [] {
      var init := ks[..|ks| - 1];
      FirstSeenMeaning(init);
      assert ks == init + [ks[|ks| - 1]];
    }
  }

  /** The values paired with `k`, in order. */
  function ValuesOf<K(==), V>(kvs: seq<(K, V)>, k: K): (vs: seq<V>)
    ensures |vs| <= |kvs|
  {
    if kvs == [] then []
    else
      var last := kvs[|kvs| - 1];
      ValuesOf(kvs[..|kvs| - 1], k) + (if last.0 == k then [last.1] else [])
  }

  /** The grouped dictionary after appending every pair of `kvs`, in order. */
  function GroupBy<K(==), V>(kvs: seq<(K, V)>): Dict<K, seq<V>>
  {
    if kvs == [] then []
    else
      var last := kvs[|kvs| - 1];
      AppendTo(GroupBy(kvs[..|kvs| - 1]), last.0, last.1)
  }

  /** Grouping one more pair appends its value under its key. */
  lemma GroupBySnoc<K, V>(kvs: seq<(K, V)>, e: (K, V))
    ensures GroupBy(kvs + [e]) == AppendTo(GroupBy(kvs), e.0, e.1)
  {
    assert (kvs + [e])[..|kvs|] == kvs;
  }

  /** A key that never occurs has no values. */
  lemma {:induction false} ValuesOfAbsent<K, V>(kvs: seq<(K, V)>, k: K)
    requires k !in Keys(kvs)
    ensures ValuesOf(kvs, k) == []
  {
    if kvs != [] {
      var init := kvs[..|kvs| - 1];
      assert Keys(init) == Keys(kvs)[..|kvs| - 1];
      ValuesOfAbsent(init, k);
    }
  }

  /**
   * Grouping keeps its keys distinct and in order of first appearance, and each
   * key holds exactly the values paired with it, in order.
   */
  lemma {:induction false} GroupByMeaning<K, V>(kvs: seq<(K, V)>)
    ensures DistinctKeys(GroupBy(kvs))
    ensures Keys(GroupBy(kvs)) == FirstSeen(Keys(kvs))
    ensures forall k :: Get(GroupBy(kvs), k) == if k in Keys(kvs) then Some(ValuesOf(kvs, k)) else None
  {
    if kvs != [] {
      var init, last := kvs[..|kvs| - 1], kvs[|kvs| - 1];
      GroupByMeaning(init);
      var prev := GroupBy(init);
      var ks := Keys(kvs);
      assert Keys(init) == ks[..|kvs| - 1];
      assert ks == Keys(init) + [last.0];
      FirstSeenMeaning(Keys(init));
      FindInKeys(prev, last.0);
      var entry := Get(prev, last.0).GetOr([]) + [last.1];
      PutKeys(prev, last.0, entry);
      PutGet(prev, last.0, entry);
      assert GroupBy(kvs) == Put(prev, last.0, entry);
      forall k ensures Get(GroupBy(kvs), k) == if k in ks then Some(ValuesOf(kvs, k)) else None {
        assert ValuesOf(kvs, k) == ValuesOf(init, k) + (if last.0 == k then [last.1] else []);
        assert k in ks <==> k in Keys(init) || k == last.0;
        if k != last.0 {
          PutGetOther(prev, last.0, entry, k);
          assert Get(GroupBy(kvs), k) == Get(prev, k);
          assert ValuesOf(kvs, k) == ValuesOf(init, k);
        } else if last.0 !in Keys(init) {
          ValuesOfAbsent(init, k);
          assert Get(GroupBy(kvs), k) == Some(entry);
          assert Get(prev, k) == None;
          assert entry == [last.1];
        } else {
          assert Get(GroupBy(kvs), k) == Some(entry);
          assert Get(prev, k) == Some(ValuesOf(init, k));
        }
      }
    }
  }

  // ---------------------------------------------------------------------
  // Keyed folds: `for k, v in kvs: d[k] = add(d.get(k, init), v)`
  // ---------------------------------------------------------------------

  /** Left fold of `add` over `vs`, starting from `init`. */
  function FoldValues<V, A>(init: A, add: (A, V) -> A, vs: seq<V>): A
  {
    if vs == [] then init else add(FoldValues(init, add, vs[..|vs| - 1]), vs[|vs| - 1])
  }

  /** The dictionary after folding every pair of `kvs` into the entry of its key, in order. */
  function Accumulate<K(==), V, A>(kvs: seq<(K, V)>, init: A, add: (A, V) -> A): Dict<K, A>
  {
    if kvs == [] then []
    else
      var last := kvs[|kvs| - 1];
      var d := Accumulate(kvs[..|kvs| - 1], init, add);
      Put(d, last.0, add(Get(d, last.0).GetOr(init), last.1))
  }

  /** Folding in one more pair updates only the entry of its key. */
  lemma AccumulateSnoc<K, V, A>(kvs: seq<(K, V)>, e: (K, V), init: A, add: (A, V) -> A)
    ensures var d := Accumulate(kvs, init, add);
            Accumulate(kvs + [e], init, add) == Put(d, e.0, add(Get(d, e.0).GetOr(init), e.1))
  {
    assert (kvs + [e])[..|kvs|] == kvs;
  }

  /**
   * The keyed fold keeps its keys distinct and in order of first appearance, and
   * each key holds the fold of exactly the values paired with it, in order.
   */
  lemma {:induction false} AccumulateMeaning<K, V, A>(kvs: seq<(K, V)>, init: A, add: (A, V) -> A)
    ensures DistinctKeys(Accumulate(kvs, init, add))
    ensures Keys(Accumulate(kvs, init, add)) == FirstSeen(Keys(kvs))
    ensures forall k :: Get(Accumulate(kvs, init, add), k) ==
                        if k in Keys(kvs) then Some(FoldValues(init, add, ValuesOf(kvs, k))) else None
  {
    if kvs != [] {
      var init', last := kvs[..|kvs| - 1], kvs[|kvs| - 1];
      AccumulateMeaning(init', init, add);
      var prev := Accumulate(init', init, add);
      var ks := Keys(kvs);
      assert Keys(init') == ks[..|kvs| - 1];
      assert ks == Keys(init') + [last.0];
      FirstSeenMeaning(Keys(init'));
      FindInKeys(prev, last.0);
      var entry := add(Get(prev, last.0).GetOr(init), last.1);
      PutKeys(prev, last.0, entry);
      PutGet(prev, last.0, entry);
      assert Accumulate(kvs, init, add) == Put(prev, last.0, entry);
      forall k ensures Get(Accumulate(kvs, init, add), k) ==
                       if k in ks then Some(FoldValues(init, add, ValuesOf(kvs, k))) else None {
        var vs := ValuesOf(kvs, k);
        assert vs == ValuesOf(init', k) + (if last.0 == k then [last.1] else []);
        assert k in ks <==> k in Keys(init') || k == last.0;
        if k != last.0 {
          PutGetOther(prev, last.0, entry, k);
          assert vs == ValuesOf(init', k);
        } else {
          assert vs[..|vs| - 1] == ValuesOf(init', k);
          if last.0 !in Keys(init') {
            ValuesOfAbsent(init', k);
            assert Get(prev, k) == None;
          } else {
            assert Get(prev, k) == Some(FoldValues(init, add, ValuesOf(init', k)));
          }
          assert FoldValues(init, add, vs) == entry;
        }
      }
    }
  }
}
