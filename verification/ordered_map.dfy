/** PHP arrays used as dictionaries: an ordered sequence of key/value pairs.
    Assigning to an existing key keeps its position; assigning to a new key
    appends it. `Merge` is `array_merge` for arrays whose keys are never
    renumbered (string keys). */
module OrderedMap {
  import opened Common

  type Entries<K, V> = seq<(K, V)>

  function Keys<K, V>(m: Entries<K, V>): (r: seq<K>)
    ensures |r| == |m|
    ensures forall i :: 0 <= i < |m| ==> r[i] == m[i].0
  {
    seq(|m|, i requires 0 <= i < |m| => m[i].0)
  }

  predicate HasKey<K(==), V>(m: Entries<K, V>, k: K) {
    exists i :: 0 <= i < |m| && m[i].0 == k
  }

  predicate DistinctKeys<K(==), V>(m: Entries<K, V>) {
    forall i, j :: 0 <= i < j < |m| ==> m[i].0 != m[j].0
  }

  lemma HasKeyCons<K, V>(m: Entries<K, V>, k: K)
    requires |m| > 0
    ensures HasKey(m, k) <==> m[0].0 == k || HasKey(m[1..], k)
  {
    if HasKey(m[1..], k) {
      var i :| 0 <= i < |m[1..]| && m[1..][i].0 == k;
      assert m[i + 1].0 == k;
    }
    if HasKey(m, k) && m[0].0 != k {
      var i :| 0 <= i < |m| && m[i].0 == k;
      assert m[1..][i - 1].0 == k;
    }
  }

  lemma DistinctCons<K, V>(m: Entries<K, V>)
    requires |m| > 0
    ensures DistinctKeys(m) <==> DistinctKeys(m[1..]) && !HasKey(m[1..], m[0].0)
  {
    if DistinctKeys(m) {
      forall i, j | 0 <= i < j < |m[1..]| ensures m[1..][i].0 != m[1..][j].0 {
        assert m[1..][i] == m[i + 1] && m[1..][j] == m[j + 1];
      }
      forall i | 0 <= i < |m[1..]| ensures m[1..][i].0 != m[0].0 {
        assert m[1..][i] == m[i + 1];
      }
    }
    if DistinctKeys(m[1..]) && !HasKey(m[1..], m[0].0) {
      forall i, j | 0 <= i < j < |m| ensures m[i].0 != m[j].0 {
        if i == 0 {
          assert m[1..][j - 1].0 == m[j].0;
        } else {
          assert m[1..][i - 1] == m[i] && m[1..][j - 1] == m[j];
        }
      }
    }
  }

  /** The value stored under `k` (its first occurrence). */
  function Get<K(==), V>(m: Entries<K, V>, k: K): (r: Option<V>)
    ensures r.Some? <==> HasKey(m, k)
  {
    if |m| == 0 then None
    else
      HasKeyCons(m, k);
      if m[0].0 == k then Some(m[0].1) else Get(m[1..], k)
  }

  /** A key's value is the value of some pair carrying that key. */
  lemma {:induction false} GetIsEntry<K, V>(m: Entries<K, V>, k: K)
    requires HasKey(m, k)
    ensures (k, Get(m, k).value) in m
  {
    if m[0].0 != k {
      HasKeyCons(m, k);
      GetIsEntry(m[1..], k);
    }
  }

  /** In a map with distinct keys, every pair is what `Get` finds. */
  lemma {:induction false} EntryIsGet<K, V>(m: Entries<K, V>, i: nat)
    requires DistinctKeys(m) && i < |m|
    ensures Get(m, m[i].0) == Some(m[i].1)
  {
    if i > 0 {
      DistinctCons(m);
      assert m[0].0 != m[i].0;
      assert m[1..][i - 1] == m[i];
      EntryIsGet(m[1..], i - 1);
    }
  }

  /** `$m[$k] = $v`. */
  function Put<K(==), V>(m: Entries<K, V>, k: K, v: V): (r: Entries<K, V>)
    ensures Get(r, k) == Some(v)
    ensures !HasKey(m, k) ==> r == m + [(k, v)]
  {
    if |m| == 0 then [(k, v)]
    else
      HasKeyCons(m, k);
      if m[0].0 == k then [(k, v)] + m[1..]
      else [m[0]] + Put(m[1..], k, v)
  }

  /** Assigning an existing key keeps every key in its place. */
  lemma {:induction false} PutExistingKeys<K, V>(m: Entries<K, V>, k: K, v: V)
    requires HasKey(m, k)
    ensures Keys(Put(m, k, v)) == Keys(m)
  {
    HasKeyCons(m, k);
    var r := Put(m, k, v);
    if m[0].0 != k {
      PutExistingKeys(m[1..], k, v);
      assert Keys(r) == [m[0].0] + Keys(Put(m[1..], k, v));
    } else {
      assert Keys(r) == [k] + Keys(m[1..]);
    }
    assert Keys(m) == [m[0].0] + Keys(m[1..]);
  }

  /** Assigning the value a key already holds changes nothing. */
  lemma {:induction false} PutSame<K, V>(m: Entries<K, V>, k: K, v: V)
    requires Get(m, k) == Some(v)
    ensures Put(m, k, v) == m
  {
    if m[0].0 != k {
      PutSame(m[1..], k, v);
    }
  }

  /** Assigning one key leaves every other key's value alone. */
  lemma {:induction false} PutOther<K, V>(m: Entries<K, V>, k: K, v: V, k': K)
    requires k' != k
    ensures Get(Put(m, k, v), k') == Get(m, k')
  {
    if |m| > 0 && m[0].0 != k {
      PutOther(m[1..], k, v, k');
    }
  }

  lemma {:induction false} PutDistinct<K, V>(m: Entries<K, V>, k: K, v: V)
    requires DistinctKeys(m)
    ensures DistinctKeys(Put(m, k, v))
  {
    if |m| > 0 {
      DistinctCons(m);
      var r := Put(m, k, v);
      if m[0].0 == k {
        DistinctCons(r);
        assert r[1..] == m[1..];
      } else {
        PutDistinct(m[1..], k, v);
        var rest := Put(m[1..], k, v);
        assert r[1..] == rest;
        PutOther(m[1..], k, v, m[0].0);
        DistinctCons(r);
      }
    }
  }

  /** `array_merge($a, $b)` for keys that are never renumbered: start from
      `a`, then assign each entry of `b` in order. */
  function Merge<K(==), V>(a: Entries<K, V>, b: Entries<K, V>): Entries<K, V>
    decreases |b|
  {
    if |b| == 0 then a else Merge(Put(a, b[0].0, b[0].1), b[1..])
  }

  /** A key `b` does not carry keeps `a`'s value (or stays absent). */
  lemma {:induction false} MergeLeftKept<K, V>(a: Entries<K, V>, b: Entries<K, V>, k: K)
    requires !HasKey(b, k)
    ensures Get(Merge(a, b), k) == Get(a, k)
    decreases |b|
  {
    if |b| > 0 {
      HasKeyCons(b, k);
      PutOther(a, b[0].0, b[0].1, k);
      MergeLeftKept(Put(a, b[0].0, b[0].1), b[1..], k);
    }
  }

  /** When `b` has distinct keys, every key of `b` ends with `b`'s value:
      the later array wins. */
  lemma {:induction false} MergeRightWins<K, V>(a: Entries<K, V>, b: Entries<K, V>, k: K)
    requires DistinctKeys(b)
    requires HasKey(b, k)
    ensures Get(Merge(a, b), k) == Get(b, k)
    decreases |b|
  {
    HasKeyCons(b, k);
    DistinctCons(b);
    if b[0].0 == k {
      MergeLeftKept(Put(a, k, b[0].1), b[1..], k);
    } else {
      MergeRightWins(Put(a, b[0].0, b[0].1), b[1..], k);
    }
  }

  lemma {:induction false} MergeDistinct<K, V>(a: Entries<K, V>, b: Entries<K, V>)
    requires DistinctKeys(a)
    ensures DistinctKeys(Merge(a, b))
    decreases |b|
  {
    if |b| > 0 {
      PutDistinct(a, b[0].0, b[0].1);
      MergeDistinct(Put(a, b[0].0, b[0].1), b[1..]);
    }
  }

  /** None of `b`'s keys is present in `a`. */
  predicate KeysAbsent<K(==), V>(a: Entries<K, V>, b: Entries<K, V>) {
    forall i :: 0 <= i < |b| ==> !HasKey(a, b[i].0)
  }

  lemma KeysAbsentStep<K, V>(a: Entries<K, V>, b: Entries<K, V>)
    requires |b| > 0 && DistinctKeys(b) && KeysAbsent(a, b)
    ensures KeysAbsent(Put(a, b[0].0, b[0].1), b[1..])
  {
    forall i | 0 <= i < |b[1..]| ensures !HasKey(Put(a, b[0].0, b[0].1), b[1..][i].0) {
      assert b[1..][i] == b[i + 1];
      assert b[0].0 != b[i + 1].0;
      PutOther(a, b[0].0, b[0].1, b[i + 1].0);
    }
  }

  lemma DistinctTail<K, V>(b: Entries<K, V>)
    requires |b| > 0 && DistinctKeys(b)
    ensures DistinctKeys(b[1..])
  {
    DistinctCons(b);
  }

  /** With disjoint keys, `array_merge` is concatenation: `a`'s entries keep
      their order and `b`'s follow. */
  lemma {:induction false} MergeDisjoint<K, V>(a: Entries<K, V>, b: Entries<K, V>)
    requires KeysAbsent(a, b)
    requires DistinctKeys(b)
    ensures Merge(a, b) == a + b
    decreases |b|
  {
    if |b| > 0 {
      ConcatStep(a, b);
      KeysAbsentStep(a, b);
      DistinctTail(b);
      MergeDisjoint(Put(a, b[0].0, b[0].1), b[1..]);
    }
  }

  lemma ConcatStep<K, V>(a: Entries<K, V>, b: Entries<K, V>)
    requires |b| > 0 && KeysAbsent(a, b)
    ensures Put(a, b[0].0, b[0].1) + b[1..] == a + b
  {
    assert !HasKey(a, b[0].0);
    assert b == [b[0]] + b[1..];
  }

  /** A lookup in a concatenation finds the first part's entry if it has
      one, and the second part's otherwise. */
  lemma {:induction false} GetConcat<K, V>(a: Entries<K, V>, b: Entries<K, V>, k: K)
    ensures Get(a + b, k) == if HasKey(a, k) then Get(a, k) else Get(b, k)
    decreases |a|
  {
    if |a| == 0 {
      assert a + b == b;
    } else {
      HasKeyCons(a, k);
      assert (a + b)[0] == a[0];
      assert (a + b)[1..] == a[1..] + b;
      GetConcat(a[1..], b, k);
    }
  }

  /** The value under `k` is the one of its first occurrence. */
  lemma {:induction false} GetPrefix<K, V>(m: Entries<K, V>, k: K, i: nat)
    requires i < |m| && m[i].0 == k
    requires forall j :: 0 <= j < i ==> m[j].0 != k
    ensures Get(m, k) == Some(m[i].1)
    decreases i
  {
    if i > 0 {
      GetPrefix(m[1..], k, i - 1);
    }
  }
}
