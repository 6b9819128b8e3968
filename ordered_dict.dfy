/**
 * A JavaScript plain object used as a dictionary: entries in insertion
 * order, one per key. Assigning an existing key keeps its position;
 * assigning a new key appends it. A spread `{...a, ...b}` assigns b's
 * entries onto a copy of a, in b's order.
 */
module OrderedDict {
  import opened Wrappers

  type Dict<V> = seq<(string, V)>

  function Keys<V>(d: Dict<V>): (ks: seq<string>)
    ensures |ks| == |d|
    ensures forall i :: 0 <= i < |d| ==> ks[i] == d[i].0
  {
    seq(|d|, i requires 0 <= i < |d| => d[i].0)
  }

  /** No key appears twice, as in any object. */
  predicate UniqueKeys<V>(d: Dict<V>) {
    forall i, j :: 0 <= i < j < |d| ==> d[i].0 != d[j].0
  }

  /** The position of `k`, or |d| when it is absent. */
  function IndexOfKey<V>(d: Dict<V>, k: string): (i: nat)
    ensures i <= |d|
    ensures i < |d| ==> d[i].0 == k
    ensures forall j :: 0 <= j < i ==> d[j].0 != k
  {
    if d == [] then 0
    else if d[0].0 == k then 0
    else 1 + IndexOfKey(d[1..], k)
  }

  /** The first position holding `k` is the only index with those properties. */
  lemma IndexOfKeyIs<V>(d: Dict<V>, k: string, i: nat)
    requires i <= |d|
    requires i < |d| ==> d[i].0 == k
    requires i == |d| ==> forall j :: 0 <= j < |d| ==> d[j].0 != k
    requires forall j :: 0 <= j < i ==> d[j].0 != k
    ensures IndexOfKey(d, k) == i
  {
  }

  /** `d[k]`: the value stored under `k`, if any. */
  function Get<V>(d: Dict<V>, k: string): (r: Option<V>)
    ensures r.None? <==> k !in Keys(d)
  {
    var i := IndexOfKey(d, k);
    if i < |d| then Some(d[i].1)
    else
      assert forall j :: 0 <= j < |d| ==> Keys(d)[j] != k;
      None
  }

  /** `d[k] = v`: overwrite in place, or append a new entry. */
  function Set<V>(d: Dict<V>, k: string, v: V): (r: Dict<V>)
    ensures |r| == |d| || |r| == |d| + 1
  {
    var i := IndexOfKey(d, k);
    if i < |d| then d[i := (k, v)] else d + [(k, v)]
  }

  /** Reading after writing: the written key has the new value, every other key its old one. */
  lemma GetSet<V>(d: Dict<V>, k: string, v: V, q: string)
    ensures Get(Set(d, k, v), q) == if q == k then Some(v) else Get(d, q)
  {
    var i := IndexOfKey(d, k);
    var r := Set(d, k, v);
    var iq := IndexOfKey(d, q);
    if q == k {
      IndexOfKeyIs(r, q, i);
    } else if i < |d| {
      IndexOfKeyIs(r, q, iq);
    } else {
      if iq < |d| {
        IndexOfKeyIs(r, q, iq);
      } else {
        IndexOfKeyIs(r, q, |r|);
      }
    }
  }

  /** Writing keeps every existing key where it was, and adds at most the written one at the end. */
  lemma SetKeys<V>(d: Dict<V>, k: string, v: V)
    ensures Keys(Set(d, k, v)) == if k in Keys(d) then Keys(d) else Keys(d) + [k]
  {
    var i := IndexOfKey(d, k);
    if i == |d| {
      assert forall j :: 0 <= j < |d| ==> Keys(d)[j] != k;
    } else {
      assert Keys(d)[i] == k;
    }
  }

  /** Writing keeps the keys unique. */
  lemma SetUnique<V>(d: Dict<V>, k: string, v: V)
    requires UniqueKeys(d)
    ensures UniqueKeys(Set(d, k, v))
  {
    SetKeys(d, k, v);
    var r := Set(d, k, v);
    forall i, j | 0 <= i < j < |r| ensures r[i].0 != r[j].0 {
      assert Keys(r)[i] == r[i].0 && Keys(r)[j] == r[j].0;
      if j == |d| {
        assert k !in Keys(d);
        assert Keys(r)[i] == Keys(d)[i];
      }
    }
  }

  /** The keys of a dictionary with one more entry at the end. */
  lemma KeysSnoc<V>(d: Dict<V>, e: (string, V))
    ensures Keys(d + [e]) == Keys(d) + [e.0]
  {
  }

  /** One more entry keeps the keys unique exactly when its key is new. */
  lemma UniqueSnoc<V>(d: Dict<V>, e: (string, V))
    ensures UniqueKeys(d + [e]) <==> UniqueKeys(d) && e.0 !in Keys(d)
  {
    var r := d + [e];
    if UniqueKeys(r) {
      forall i | 0 <= i < |d| ensures Keys(d)[i] != e.0 {
        assert r[i] == d[i] && r[|d|] == e;
      }
      forall i, j | 0 <= i < j < |d| ensures d[i].0 != d[j].0 {
        assert r[i] == d[i] && r[j] == d[j];
      }
    }
    if UniqueKeys(d) && e.0 !in Keys(d) {
      forall i, j | 0 <= i < j < |r| ensures r[i].0 != r[j].0 {
        if j < |d| {
          assert r[i] == d[i] && r[j] == d[j];
        } else {
          assert Keys(d)[i] == d[i].0;
        }
      }
    }
  }

  /** `{...a, ...b}`: the entries of `b`, in order, written onto `a`. */
  function Merge<V>(a: Dict<V>, b: Dict<V>): Dict<V> {
    if b == [] then a
    else
      var last := b[|b| - 1];
      Set(Merge(a, b[..|b| - 1]), last.0, last.1)
  }

  /** In a spread, the right-hand object wins: a key of `b` has b's value, any other key a's. */
  lemma {:induction false} GetMerge<V>(a: Dict<V>, b: Dict<V>, q: string)
    requires UniqueKeys(b)
    ensures Get(Merge(a, b), q) == if q in Keys(b) then Get(b, q) else Get(a, q)
  {
    if b != [] {
      var init, last := b[..|b| - 1], b[|b| - 1];
      assert UniqueKeys(init);
      GetMerge(a, init, q);
      GetSet(Merge(a, init), last.0, last.1, q);
      assert b == init + [last];
      KeysSnoc(init, last);
      if q == last.0 {
        assert q !in Keys(init);
        IndexOfKeyIs(b, q, |b| - 1);
      } else if q in Keys(init) {
        var j := IndexOfKey(init, q);
        IndexOfKeyIs(b, q, j);
      }
    }
  }

  /** The keys of `a` keep their positions at the front of the spread. */
  lemma {:induction false} MergeKeepsKeys<V>(a: Dict<V>, b: Dict<V>)
    ensures |Merge(a, b)| >= |a|
    ensures Keys(Merge(a, b))[..|a|] == Keys(a)
  {
    if b != [] {
      var init, last := b[..|b| - 1], b[|b| - 1];
      MergeKeepsKeys(a, init);
      SetKeys(Merge(a, init), last.0, last.1);
    }
  }

  /** The spread of two objects is an object: its keys are unique. */
  lemma {:induction false} MergeUnique<V>(a: Dict<V>, b: Dict<V>)
    requires UniqueKeys(a)
    ensures UniqueKeys(Merge(a, b))
  {
    if b != [] {
      var init, last := b[..|b| - 1], b[|b| - 1];
      MergeUnique(a, init);
      SetUnique(Merge(a, init), last.0, last.1);
    }
  }

  /** The values, in entry order (`Object.entries(d).map(([k, v]) => v)`), skipping one key. */
  function ValuesExcept<V>(d: Dict<V>, skip: string): (vs: seq<V>)
    ensures |vs| <= |d|
  {
    if d == [] then []
    else ValuesExcept(d[..|d| - 1], skip) + (if d[|d| - 1].0 == skip then [] else [d[|d| - 1].1])
  }
}
