/**
 * Python's insertion-ordered `dict` with string keys, as the list of its
 * (key, value) pairs: assignment to a present key keeps its position, a new
 * key goes to the end, and `json.dumps` writes the pairs in this order.
 */
module Dicts {
  import opened Wrappers

  type Dict<V> = seq<(string, V)>

  function Keys<V>(d: Dict<V>): (r: seq<string>)
    ensures |r| == |d| && forall i :: 0 <= i < |d| ==> r[i] == d[i].0
  {
    seq(|d|, i requires 0 <= i < |d| => d[i].0)
  }

  predicate Distinct(s: seq<string>) {
    forall i, j :: 0 <= i < j < |s| ==> s[i] != s[j]
  }

  predicate UniqueKeys<V>(d: Dict<V>) {
    Distinct(Keys(d))
  }

  lemma KeysCons<V>(d: Dict<V>)
    requires d != []
    ensures Keys(d) == [d[0].0] + Keys(d[1..])
  {
  }

  lemma KeysAppend<V>(a: Dict<V>, b: Dict<V>)
    ensures Keys(a + b) == Keys(a) + Keys(b)
  {
  }

  /** `d.get(k)`. */
  function Get<V>(d: Dict<V>, k: string): (r: Option<V>)
    ensures r.None? <==> k !in Keys(d)
    ensures r.Some? ==> (k, r.value) in d
  {
    if d == [] then None
    else
      KeysCons(d);
      if d[0].0 == k then Some(d[0].1) else Get(d[1..], k)
  }

  /** `d[k] = v`. */
  function Put<V>(d: Dict<V>, k: string, v: V): (r: Dict<V>)
    ensures Get(r, k) == Some(v)
    ensures forall k' :: k' != k ==> Get(r, k') == Get(d, k')
  {
    if d == [] then [(k, v)]
    else if d[0].0 == k then [(k, v)] + d[1..]
    else [d[0]] + Put(d[1..], k, v)
  }

  lemma {:induction false} PutKeys<V>(d: Dict<V>, k: string, v: V)
    ensures k in Keys(d) ==> Keys(Put(d, k, v)) == Keys(d)
    ensures k !in Keys(d) ==> Put(d, k, v) == d + [(k, v)]
  {
    if k in Keys(d) { PutPresent(d, k, v); } else { PutAbsent(d, k, v); }
  }

  lemma {:induction false} PutPresent<V>(d: Dict<V>, k: string, v: V)
    requires k in Keys(d)
    ensures Keys(Put(d, k, v)) == Keys(d)
  {
    KeysCons(d);
    var r := Put(d, k, v);
    KeysCons(r);
    if d[0].0 != k {
      PutPresent(d[1..], k, v);
      assert r[1..] == Put(d[1..], k, v);
    }
  }

  lemma {:induction false} PutAbsent<V>(d: Dict<V>, k: string, v: V)
    requires k !in Keys(d)
    ensures Put(d, k, v) == d + [(k, v)]
  {
    if d != [] {
      KeysCons(d);
      PutAbsent(d[1..], k, v);
      PutSkips(d, k, v);
      ConsSnoc(d, (k, v));
    }
  }

  lemma PutSkips<V>(d: Dict<V>, k: string, v: V)
    requires d != [] && d[0].0 != k
    ensures Put(d, k, v) == [d[0]] + Put(d[1..], k, v)
  {
  }

  lemma ConsSnoc<T>(s: seq<T>, x: T)
    requires s != []
    ensures [s[0]] + (s[1..] + [x]) == s + [x]
  {
  }

  lemma PutUnique<V>(d: Dict<V>, k: string, v: V)
    requires UniqueKeys(d)
    ensures UniqueKeys(Put(d, k, v))
  {
    PutKeys(d, k, v);
    if k !in Keys(d) {
      KeysAppend(d, [(k, v)]);
      assert Keys([(k, v)]) == [k];
      DistinctSnoc(Keys(d), k);
    }
  }

  /** Keys kept out of `bad` stay out of it when a key outside `bad` is assigned. */
  lemma PutAvoids<V>(d: Dict<V>, k: string, v: V, bad: seq<string>)
    requires forall k' :: k' in Keys(d) ==> k' !in bad
    requires k !in bad
    ensures forall k' :: k' in Keys(Put(d, k, v)) ==> k' !in bad
  {
    PutKeys(d, k, v);
    if k !in Keys(d) {
      KeysAppend(d, [(k, v)]);
    }
  }

  lemma DistinctSnoc(s: seq<string>, x: string)
    requires Distinct(s) && x !in s
    ensures Distinct(s + [x])
  {
    forall i, j | 0 <= i < j < |s| + 1 ensures (s + [x])[i] != (s + [x])[j] {
      if j == |s| {
        assert s[i] in s;
      }
    }
  }

  /** `del d[k]`. */
  function Del<V>(d: Dict<V>, k: string): (r: Dict<V>)
    ensures forall k' :: k' != k ==> Get(r, k') == Get(d, k')
    ensures Get(r, k) == None
  {
    if d == [] then []
    else if d[0].0 == k then Del(d[1..], k)
    else [d[0]] + Del(d[1..], k)
  }

  /** The value of the last pair of `entries` whose key is `k`. */
  function LastGet<V>(entries: Dict<V>, k: string): (r: Option<V>)
    ensures r.None? <==> k !in Keys(entries)
  {
    if entries == [] then None
    else
      var n := |entries| - 1;
      KeysAppend(entries[..n], [entries[n]]);
      assert entries[..n] + [entries[n]] == entries;
      if entries[n].0 == k then Some(entries[n].1) else LastGet(entries[..n], k)
  }

  /** `for k, v in entries: d[k] = v`; also `d | entries`. */
  function PutAll<V>(d: Dict<V>, entries: Dict<V>): (r: Dict<V>)
    ensures forall k :: Get(r, k) == if k in Keys(entries) then LastGet(entries, k) else Get(d, k)
    decreases |entries|
  {
    if entries == [] then d
    else
      var n := |entries| - 1;
      KeysAppend(entries[..n], [entries[n]]);
      assert entries[..n] + [entries[n]] == entries;
      Put(PutAll(d, entries[..n]), entries[n].0, entries[n].1)
  }

  /** When no key is repeated, the assignments simply append. */
  lemma {:induction false} PutAllFresh<V>(d: Dict<V>, entries: Dict<V>)
    requires UniqueKeys(d + entries)
    ensures PutAll(d, entries) == d + entries
    decreases |entries|
  {
    if entries != [] {
      var n := |entries| - 1;
      var front := d + entries[..n];
      SnocSplit(d, entries);
      UniqueLastFresh(d + entries);
      PutAllFresh(d, entries[..n]);
      PutAbsent(front, entries[n].0, entries[n].1);
      PutAllLast(d, entries);
    }
  }

  lemma SnocSplit<V>(d: Dict<V>, entries: Dict<V>)
    requires entries != []
    ensures (d + entries)[..|d + entries| - 1] == d + entries[..|entries| - 1]
    ensures (d + entries)[|d + entries| - 1] == entries[|entries| - 1]
    ensures d + entries[..|entries| - 1] + [entries[|entries| - 1]] == d + entries
  {
  }

  /** With distinct keys, the last key is not among the earlier ones, which also have distinct keys. */
  lemma UniqueLastFresh<V>(d: Dict<V>)
    requires UniqueKeys(d) && d != []
    ensures UniqueKeys(d[..|d| - 1]) && d[|d| - 1].0 !in Keys(d[..|d| - 1])
  {
    var n := |d| - 1;
    var k := Keys(d[..n]);
    assert forall i :: 0 <= i < n ==> k[i] == Keys(d)[i];
    assert Keys(d)[n] == d[n].0;
  }

  lemma PutAllLast<V>(d: Dict<V>, entries: Dict<V>)
    requires entries != []
    ensures PutAll(d, entries)
         == Put(PutAll(d, entries[..|entries| - 1]), entries[|entries| - 1].0, entries[|entries| - 1].1)
  {
  }

  /** In a dict with distinct keys, `Get` finds exactly the stored pairs. */
  lemma GetUnique<V>(d: Dict<V>, i: nat)
    requires UniqueKeys(d) && i < |d|
    ensures Get(d, d[i].0) == Some(d[i].1)
  {
    var r := Get(d, d[i].0);
    var j :| 0 <= j < |d| && d[j] == (d[i].0, r.value);
    assert Keys(d)[i] == Keys(d)[j];
  }

  /** In a dict with distinct keys, `Get` finds the pair at any position. */
  lemma GetAt<V>(d: Dict<V>, j: nat, k: string, v: V)
    requires UniqueKeys(d) && j < |d| && d[j] == (k, v)
    ensures Get(d, k) == Some(v)
  {
    GetUnique(d, j);
  }

  // `Get` on a dict with distinct keys made of parts finds the pairs of each part.

  lemma GetInFirst<V>(part: Dict<V>, b: Dict<V>, c: Dict<V>, d: Dict<V>, i: nat)
    requires UniqueKeys(part + b + c + d) && i < |part|
    ensures Get(part + b + c + d, part[i].0) == Some(part[i].1)
  {
    var e := part + b + c + d;
    assert e[i] == part[i];
    GetAt(e, i, part[i].0, part[i].1);
  }

  lemma GetInSecond<V>(a: Dict<V>, part: Dict<V>, c: Dict<V>, d: Dict<V>, i: nat)
    requires UniqueKeys(a + part + c + d) && i < |part|
    ensures Get(a + part + c + d, part[i].0) == Some(part[i].1)
  {
    var e := a + part + c + d;
    assert e[|a| + i] == part[i];
    GetAt(e, |a| + i, part[i].0, part[i].1);
  }

  lemma GetInMiddle<V>(x: Dict<V>, part: Dict<V>, y: Dict<V>, i: nat)
    requires UniqueKeys(x + part + y) && i < |part|
    ensures Get(x + part + y, part[i].0) == Some(part[i].1)
  {
    var e := x + part + y;
    assert e[|x| + i] == part[i];
    GetAt(e, |x| + i, part[i].0, part[i].1);
  }

  /** In a dict with distinct keys, the last assignment to a key is its only one. */
  lemma {:induction false} LastGetUnique<V>(d: Dict<V>, i: nat)
    requires UniqueKeys(d) && i < |d|
    ensures LastGet(d, d[i].0) == Some(d[i].1)
    decreases |d|
  {
    var n := |d| - 1;
    if i < n {
      assert Keys(d)[i] != Keys(d)[n];
      assert d[..n][i] == d[i];
      assert Keys(d[..n]) == Keys(d)[..n];
      LastGetUnique(d[..n], i);
    }
  }

  lemma DistinctAppend(a: seq<string>, b: seq<string>)
    requires Distinct(a) && Distinct(b)
    requires forall k :: k in a ==> k !in b
    ensures Distinct(a + b)
  {
    forall i, j | 0 <= i < j < |a + b| ensures (a + b)[i] != (a + b)[j] {
      if j < |a| {
        assert (a + b)[i] == a[i] && (a + b)[j] == a[j];
      } else if i >= |a| {
        assert (a + b)[i] == b[i - |a|] && (a + b)[j] == b[j - |a|];
      } else {
        assert (a + b)[i] == a[i] && (a + b)[j] == b[j - |a|];
        assert a[i] in a && b[j - |a|] in b;
      }
    }
  }

  /** `a` is `b` with some elements left out, in `b`'s order. */
  predicate IsSubsequence<T(==)>(a: seq<T>, b: seq<T>)
    decreases |b|
  {
    if a == [] then true
    else if b == [] then false
    else if a[0] == b[0] then IsSubsequence(a[1..], b[1..])
    else IsSubsequence(a, b[1..])
  }

  /** `{k: v for k, v in d.items() if k in keep}`. */
  function Restrict<V(==,!new)>(d: Dict<V>, keep: seq<string>): (r: Dict<V>)
    ensures forall e :: e in r <==> e in d && e.0 in keep
    ensures IsSubsequence(r, d)
    decreases |d|
  {
    if d == [] then []
    else
      var rest := Restrict(d[1..], keep);
      assert forall e :: e in d <==> e == d[0] || e in d[1..];
      if d[0].0 in keep then
        assert ([d[0]] + rest)[1..] == rest;
        [d[0]] + rest
      else
        rest
  }

  lemma UniqueTail<V>(d: Dict<V>)
    requires UniqueKeys(d) && d != []
    ensures UniqueKeys(d[1..]) && d[0].0 !in Keys(d[1..])
  {
    KeysCons(d);
  }

  lemma UniqueCons<V>(x: (string, V), rest: Dict<V>)
    requires UniqueKeys(rest) && x.0 !in Keys(rest)
    ensures UniqueKeys([x] + rest)
  {
    KeysAppend([x], rest);
  }

  /** Restricting a dict keeps every key distinct from the others. */
  lemma {:induction false} RestrictUnique<V(!new)>(d: Dict<V>, keep: seq<string>)
    requires UniqueKeys(d)
    ensures UniqueKeys(Restrict(d, keep))
    decreases |d|
  {
    if d != [] {
      UniqueTail(d);
      var rest := Restrict(d[1..], keep);
      RestrictUnique(d[1..], keep);
      if d[0].0 in keep {
        assert d[0].0 !in Keys(rest);
        UniqueCons(d[0], rest);
      }
    }
  }

  /** Restricting a dict never gains a key, and loses exactly the ones not kept. */
  lemma RestrictGet<V(!new)>(d: Dict<V>, keep: seq<string>, k: string)
    requires UniqueKeys(d)
    ensures Get(Restrict(d, keep), k) == if k in keep then Get(d, k) else None
  {
    var r := Restrict(d, keep);
    RestrictUnique(d, keep);
    if Get(d, k).Some? && k in keep {
      var i :| 0 <= i < |d| && d[i] == (k, Get(d, k).value);
      var j :| 0 <= j < |r| && r[j] == d[i];
      GetUnique(r, j);
    }
  }

  /** After a sequence of assignments the keys are the old ones and the assigned ones. */
  lemma PutAllKeys<V>(d: Dict<V>, entries: Dict<V>, k: string)
    ensures k in Keys(PutAll(d, entries)) <==> k in Keys(d) || k in Keys(entries)
  {
    var r := PutAll(d, entries);
    assert Get(r, k).None? <==> k !in Keys(r);
  }

  /** One more assignment at the end of a loop over `entries`. */
  /** Adding one more entry at the end is one more `Put`. */
  lemma PutAllAppendOne<V>(d: Dict<V>, entries: Dict<V>, e: (string, V))
    ensures PutAll(d, entries + [e]) == Put(PutAll(d, entries), e.0, e.1)
  {
    PutAllLast(d, entries + [e]);
    assert (entries + [e])[..|entries|] == entries;
  }

  lemma PutAllSnoc<V>(d: Dict<V>, entries: Dict<V>, i: nat)
    requires i < |entries|
    ensures PutAll(d, entries[..i + 1]) == Put(PutAll(d, entries[..i]), entries[i].0, entries[i].1)
  {
    assert entries[..i + 1][..i] == entries[..i];
  }

  lemma InKeys<V>(d: Dict<V>, k: string)
    ensures k in Keys(d) <==> exists i :: 0 <= i < |d| && d[i].0 == k
  {
    if k in Keys(d) {
      var i :| 0 <= i < |d| && Keys(d)[i] == k;
    }
  }

  /** Looking up the key at position `i` of a dictionary: its own value, when no earlier entry has that key. */
  lemma {:induction false} GetLiteral<V>(d: Dict<V>, i: nat)
    requires i < |d| && forall j :: 0 <= j < i ==> d[j].0 != d[i].0
    ensures Get(d, d[i].0) == Some(d[i].1)
  {
    if i > 0 {
      assert forall j :: 0 <= j < i - 1 ==> d[1..][j] == d[j + 1];
      GetLiteral(d[1..], i - 1);
    }
  }

  lemma GetAbsent<V>(d: Dict<V>, k: string)
    requires forall j :: 0 <= j < |d| ==> d[j].0 != k
    ensures Get(d, k) == None
  {
    InKeys(d, k);
  }
}
