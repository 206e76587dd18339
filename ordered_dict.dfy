/** A Python `dict` or a JavaScript object with string keys: a sequence of
    (key, value) entries in insertion order. Assigning to a present key keeps
    its position, assigning to a new key appends, deleting removes the entry;
    iteration follows the sequence. */
module OrderedDict {
  import opened Wrappers

  type ODict<K, V> = seq<(K, V)>

  function Keys<K, V>(d: ODict<K, V>): (r: seq<K>)
    ensures |r| == |d| && forall i :: 0 <= i < |d| ==> r[i] == d[i].0
  {
    if d == [] then [] else [d[0].0] + Keys(d[1..])
  }

  /** No key occurs twice, as in every dictionary. */
  predicate Valid<K(==), V>(d: ODict<K, V>) {
    forall i, j :: 0 <= i < j < |d| ==> d[i].0 != d[j].0
  }

  /** Position of the entry for `k`. */
  function Find<K(==), V>(d: ODict<K, V>, k: K): (r: Option<nat>)
    ensures r.Some? ==> r.value < |d| && d[r.value].0 == k
    ensures r.Some? ==> forall i :: 0 <= i < r.value ==> d[i].0 != k
    ensures r.None? <==> k !in Keys(d)
  {
    if d == [] then None
    else if d[0].0 == k then Some(0)
    else
      var r := Find(d[1..], k);
      assert Keys(d) == [d[0].0] + Keys(d[1..]);
      if r.None? then None else Some(r.value + 1)
  }

  /** `d.get(k)`: the value stored under `k`, if any. */
  function Get<K(==), V>(d: ODict<K, V>, k: K): (r: Option<V>)
    ensures r.Some? <==> k in Keys(d)
  {
    match Find(d, k)
    case None => None
    case Some(i) => Some(d[i].1)
  }

  /** `d[k] = v`. */
  function Set<K(==), V>(d: ODict<K, V>, k: K, v: V): (r: ODict<K, V>)
    ensures |r| == |d| || |r| == |d| + 1
  {
    match Find(d, k)
    case None => d + [(k, v)]
    case Some(i) => d[i := (k, v)]
  }

  /** `d.pop(k)` / `delete d[k]`: every entry for `k` goes. */
  function Remove<K(==), V>(d: ODict<K, V>, k: K): (r: ODict<K, V>)
    ensures |r| <= |d|
    ensures k !in Keys(r)
    ensures forall i :: 0 <= i < |r| ==> r[i] in d && r[i].0 != k
    ensures forall i :: 0 <= i < |d| && d[i].0 != k ==> d[i] in r
  {
    if d == [] then []
    else if d[0].0 == k then Remove(d[1..], k)
    else [d[0]] + Remove(d[1..], k)
  }

  // ---------------------------------------------------------------- lemmas

  lemma KeysAppend<K, V>(d: ODict<K, V>, e: ODict<K, V>)
    ensures Keys(d + e) == Keys(d) + Keys(e)
  {
  }

  lemma ValidAppend<K, V>(d: ODict<K, V>, k: K, v: V)
    requires Valid(d) && k !in Keys(d)
    ensures Valid(d + [(k, v)])
  {
  }

  /** Assigning to a key the dictionary lacks appends the entry. */
  lemma SetNew<K, V>(d: ODict<K, V>, k: K, v: V)
    requires k !in Keys(d)
    ensures Set(d, k, v) == d + [(k, v)]
  {
  }

  /** Assigning again to the key of the last entry replaces that entry. */
  lemma SetLast<K, V>(d: ODict<K, V>, k: K, v: V, w: V)
    requires k !in Keys(d)
    ensures Set(d + [(k, v)], k, w) == d + [(k, w)]
  {
    KeysAppend(d, [(k, v)]);
    var i := Find(d + [(k, v)], k).value;
    assert i == |d|;
  }

  /** Assignment keeps the key order: the key is appended only when new. */
  lemma KeysSet<K, V>(d: ODict<K, V>, k: K, v: V)
    ensures Keys(Set(d, k, v)) == if k in Keys(d) then Keys(d) else Keys(d) + [k]
  {
    match Find(d, k)
    case None => KeysAppend(d, [(k, v)]);
    case Some(i) =>
  }

  lemma SetValid<K, V>(d: ODict<K, V>, k: K, v: V)
    requires Valid(d)
    ensures Valid(Set(d, k, v))
  {
    KeysSet(d, k, v);
  }

  /** Reading back what was just assigned, and reading any other key. */
  lemma GetSet<K, V>(d: ODict<K, V>, k: K, v: V, k': K)
    ensures Get(Set(d, k, v), k') == if k' == k then Some(v) else Get(d, k')
  {
    KeysSet(d, k, v);
    var r := Set(d, k, v);
    match Find(d, k)
    case None =>
      if k' != k {
        FindAppend(d, k, v, k');
      }
    case Some(i) =>
      FindUpdate(d, i, v, k');
  }

  lemma FindAppend<K, V>(d: ODict<K, V>, k: K, v: V, k': K)
    requires k' != k
    ensures Find(d + [(k, v)], k') == Find(d, k')
  {
    KeysAppend(d, [(k, v)]);
    if d != [] {
      assert (d + [(k, v)])[1..] == d[1..] + [(k, v)];
      FindAppend(d[1..], k, v, k');
    }
  }

  lemma FindUpdate<K, V>(d: ODict<K, V>, i: nat, v: V, k': K)
    requires i < |d|
    ensures Find(d[i := (d[i].0, v)], k') == Find(d, k')
  {
    var d' := d[i := (d[i].0, v)];
    assert d'[0].0 == d[0].0;
    if d[0].0 != k' && i > 0 {
      assert d'[1..] == d[1..][i - 1 := (d[i].0, v)];
      FindUpdate(d[1..], i - 1, v, k');
    } else if d[0].0 != k' {
      assert d'[1..] == d[1..];
    }
  }

  lemma ValidCons<K, V>(e: (K, V), r: ODict<K, V>)
    requires Valid(r) && e.0 !in Keys(r)
    ensures Valid([e] + r)
  {
    var d := [e] + r;
    forall i, j | 0 <= i < j < |d| ensures d[i].0 != d[j].0 {
      assert d[j] == r[j - 1];
      if i > 0 {
        assert d[i] == r[i - 1];
      } else {
        assert d[i] == e;
        assert Keys(r)[j - 1] == r[j - 1].0;
      }
    }
  }

  lemma ValidTail<K, V>(d: ODict<K, V>)
    requires Valid(d) && d != []
    ensures Valid(d[1..]) && d[0].0 !in Keys(d[1..])
  {
    forall i, j | 0 <= i < j < |d[1..]| ensures d[1..][i].0 != d[1..][j].0 {
      assert d[1..][i] == d[i + 1] && d[1..][j] == d[j + 1];
    }
    forall i | 0 <= i < |d[1..]| ensures Keys(d[1..])[i] != d[0].0 {
      assert d[1..][i] == d[i + 1];
    }
  }

  lemma RemoveValid<K, V>(d: ODict<K, V>, k: K)
    requires Valid(d)
    ensures Valid(Remove(d, k))
  {
    if d != [] {
      ValidTail(d);
      RemoveValid(d[1..], k);
      if d[0].0 != k {
        var r := Remove(d[1..], k);
        forall j | 0 <= j < |r| ensures Keys(r)[j] != d[0].0 {
          assert r[j] in d[1..];
        }
        ValidCons(d[0], r);
      }
    }
  }

  // ---------------------------------------------------------------- assignments in sequence

  /** Assigning each entry of `es` in turn, as a loop of `d[k] = v` does. */
  function SetAll<K(==), V>(d: ODict<K, V>, es: seq<(K, V)>): ODict<K, V> {
    if es == [] then d else Set(SetAll(d, es[..|es| - 1]), es[|es| - 1].0, es[|es| - 1].1)
  }

  /** A batch of assignments one longer ends with that assignment. */
  lemma SetAllSnoc<K, V>(d: ODict<K, V>, es: seq<(K, V)>, e: (K, V))
    ensures SetAll(d, es + [e]) == Set(SetAll(d, es), e.0, e.1)
  {
    assert (es + [e])[..|es|] == es;
  }

  /** The value of the last entry of `es` for key `k`. */
  function LastValue<K(==), V>(es: seq<(K, V)>, k: K): (r: Option<V>)
    ensures r.None? <==> k !in Keys(es)
  {
    if es == [] then None
    else if es[|es| - 1].0 == k then Some(es[|es| - 1].1)
    else
      assert Keys(es) == Keys(es[..|es| - 1]) + [es[|es| - 1].0] by {
        KeysAppend(es[..|es| - 1], [es[|es| - 1]]);
        assert es[..|es| - 1] + [es[|es| - 1]] == es;
      }
      LastValue(es[..|es| - 1], k)
  }

  /** The last assignment to a key wins; keys never assigned keep their value. */
  lemma {:induction false} GetSetAll<K, V>(d: ODict<K, V>, es: seq<(K, V)>, k: K)
    ensures Get(SetAll(d, es), k) == if k in Keys(es) then LastValue(es, k) else Get(d, k)
  {
    if es != [] {
      var init := es[..|es| - 1];
      KeysAppend(init, [es[|es| - 1]]);
      assert init + [es[|es| - 1]] == es;
      GetSetAll(d, init, k);
      GetSet(SetAll(d, init), es[|es| - 1].0, es[|es| - 1].1, k);
    }
  }

  /** Assigning distinct keys to an empty dictionary gives exactly those entries. */
  lemma {:induction false} SetAllFresh<K, V>(es: seq<(K, V)>)
    requires Valid(es)
    ensures SetAll([], es) == es
  {
    if es != [] {
      var init := es[..|es| - 1];
      assert Valid(init);
      SetAllFresh(init);
      assert es[|es| - 1].0 !in Keys(init);
      SetNew(init, es[|es| - 1].0, es[|es| - 1].1);
      assert init + [es[|es| - 1]] == es;
    }
  }

  lemma {:induction false} SetAllValid<K, V>(d: ODict<K, V>, es: seq<(K, V)>)
    requires Valid(d)
    ensures Valid(SetAll(d, es))
  {
    if es != [] {
      SetAllValid(d, es[..|es| - 1]);
      SetValid(SetAll(d, es[..|es| - 1]), es[|es| - 1].0, es[|es| - 1].1);
    }
  }

  // ---------------------------------------------------------------- dictionaries of dictionaries

  /** `d[a]`, or an empty dictionary when `a` is absent. */
  function Inner<K(==), L, V>(d: ODict<K, ODict<L, V>>, a: K): ODict<L, V> {
    match Get(d, a)
    case Some(m) => m
    case None => []
  }

  /** `if a not in d: d[a] = dict()` followed by `d[a][b] = v`. */
  function Set2<K(==), L(==), V>(d: ODict<K, ODict<L, V>>, a: K, b: L, v: V): ODict<K, ODict<L, V>> {
    Set(d, a, Set(Inner(d, a), b, v))
  }

  /** `d[a][b]`, when both keys are present. */
  function Get2<K(==), L(==), V>(d: ODict<K, ODict<L, V>>, a: K, b: L): Option<V> {
    match Get(d, a)
    case Some(m) => Get(m, b)
    case None => None
  }

  lemma Get2Set2<K, L, V>(d: ODict<K, ODict<L, V>>, a: K, b: L, v: V, a': K, b': L)
    ensures Get2(Set2(d, a, b, v), a', b') == if a' == a && b' == b then Some(v) else Get2(d, a', b')
  {
    GetSet(d, a, Set(Inner(d, a), b, v), a');
    GetSet(Inner(d, a), b, v, b');
  }

  /** Assigning each `((a, b), v)` of `es` in turn with `Set2`. */
  function SetAll2<K(==), L(==), V>(d: ODict<K, ODict<L, V>>, es: seq<((K, L), V)>): ODict<K, ODict<L, V>> {
    if es == [] then d
    else
      var e := es[|es| - 1];
      Set2(SetAll2(d, es[..|es| - 1]), e.0.0, e.0.1, e.1)
  }

  /** One more assignment over two levels is one more `Set2`. */
  lemma SetAll2Snoc<K, L, V>(d: ODict<K, ODict<L, V>>, es: seq<((K, L), V)>, e: ((K, L), V))
    ensures SetAll2(d, es + [e]) == Set2(SetAll2(d, es), e.0.0, e.0.1, e.1)
  {
    assert (es + [e])[..|es|] == es;
  }

  /** Two batches of assignments over two levels are one batch. */
  lemma {:induction false} SetAll2Append<K, L, V>(d: ODict<K, ODict<L, V>>, es: seq<((K, L), V)>, fs: seq<((K, L), V)>)
    ensures SetAll2(d, es + fs) == SetAll2(SetAll2(d, es), fs)
    decreases |fs|
  {
    if fs == [] {
      assert es + fs == es;
    } else {
      var init := fs[..|fs| - 1];
      SetAll2Append(d, es, init);
      assert (es + fs)[..|es + fs| - 1] == es + init;
    }
  }

  /** Over two levels too, the last assignment to a key pair wins. */
  lemma {:induction false} Get2SetAll2<K, L, V>(d: ODict<K, ODict<L, V>>, es: seq<((K, L), V)>, a: K, b: L)
    ensures Get2(SetAll2(d, es), a, b) == if (a, b) in Keys(es) then LastValue(es, (a, b)) else Get2(d, a, b)
  {
    if es != [] {
      var init := es[..|es| - 1];
      var e := es[|es| - 1];
      KeysAppend(init, [e]);
      assert init + [e] == es;
      Get2SetAll2(d, init, a, b);
      Get2Set2(SetAll2(d, init), e.0.0, e.0.1, e.1, a, b);
    }
  }

  /** `Set2` adds the outer key only when it is new. */
  lemma {:induction false} KeysSetAll2<K, L, V>(d: ODict<K, ODict<L, V>>, es: seq<((K, L), V)>)
    ensures forall a :: a in Keys(SetAll2(d, es)) <==> a in Keys(d) || exists e :: e in es && e.0.0 == a
  {
    if es != [] {
      var init := es[..|es| - 1];
      var e := es[|es| - 1];
      KeysSetAll2(d, init);
      KeysSet(SetAll2(d, init), e.0.0, Set(Inner(SetAll2(d, init), e.0.0), e.0.1, e.1));
      forall a
        ensures a in Keys(SetAll2(d, es)) <==> a in Keys(d) || exists x :: x in es && x.0.0 == a
      {
        if exists x :: x in init && x.0.0 == a {
          var x :| x in init && x.0.0 == a;
          assert x in es;
        }
        if exists x :: x in es && x.0.0 == a {
          var x :| x in es && x.0.0 == a;
          assert x in init || x == e;
        }
      }
    }
  }

  // ---------------------------------------------------------------- pruning

  /** The entries whose value is non-empty, in order. */
  function DropEmpty<K, A>(d: ODict<K, seq<A>>): (r: ODict<K, seq<A>>)
    ensures forall i :: 0 <= i < |r| ==> r[i] in d && |r[i].1| > 0
    ensures forall i :: 0 <= i < |d| && |d[i].1| > 0 ==> d[i] in r
    ensures |r| <= |d|
  {
    if d == [] then []
    else if |d[0].1| > 0 then [d[0]] + DropEmpty(d[1..])
    else DropEmpty(d[1..])
  }

  /** The keys of the entries whose value is empty, in order. */
  function EmptyKeys<K, A>(d: ODict<K, seq<A>>): (r: seq<K>)
    ensures forall x :: x in r ==> x in Keys(d)
  {
    if d == [] then []
    else
      var init := d[..|d| - 1];
      KeysAppend(init, [d[|d| - 1]]);
      assert init + [d[|d| - 1]] == d;
      EmptyKeys(init) + if |d[|d| - 1].1| == 0 then [d[|d| - 1].0] else []
  }

  /** Deleting each key of `ks`. */
  function RemoveKeys<K(==), V>(d: ODict<K, V>, ks: seq<K>): ODict<K, V> {
    if d == [] then []
    else if d[0].0 in ks then RemoveKeys(d[1..], ks)
    else [d[0]] + RemoveKeys(d[1..], ks)
  }

  lemma {:induction false} RemoveKeysStep<K, V>(d: ODict<K, V>, ks: seq<K>, k: K)
    ensures Remove(RemoveKeys(d, ks), k) == RemoveKeys(d, ks + [k])
  {
    if d != [] {
      RemoveKeysStep(d[1..], ks, k);
    }
  }

  /** Deleting the keys of a list one by one, in order. */
  lemma RemoveKeysPrefix<K, V>(d: ODict<K, V>, ks: seq<K>, k: nat)
    requires k < |ks|
    ensures Remove(RemoveKeys(d, ks[..k]), ks[k]) == RemoveKeys(d, ks[..k + 1])
  {
    RemoveKeysStep(d, ks[..k], ks[k]);
    assert ks[..k + 1] == ks[..k] + [ks[k]];
  }

  /** Deleting every key of a list, one by one, deletes the list. */
  lemma RemoveKeysAll<K, V>(d: ODict<K, V>, ks: seq<K>)
    ensures RemoveKeys(d, ks[..|ks|]) == RemoveKeys(d, ks)
    ensures RemoveKeys(d, ks[..0]) == d
  {
    assert ks[..|ks|] == ks;
    RemoveKeysNone(d);
    assert ks[..0] == [];
  }

  /** The empty-valued keys of a prefix one entry longer. */
  lemma EmptyKeysPrefix<K, A>(d: ODict<K, seq<A>>, j: nat)
    requires j < |d|
    ensures EmptyKeys(d[..j + 1]) == EmptyKeys(d[..j]) + (if |d[j].1| <= 0 then [d[j].0] else [])
  {
    assert d[..j + 1][..j] == d[..j];
  }

  /** In a dictionary, a key is among the empty-valued keys exactly when its value is empty. */
  lemma {:induction false} EmptyKeysExact<K, A>(d: ODict<K, seq<A>>)
    requires Valid(d)
    ensures forall i :: 0 <= i < |d| ==> (d[i].0 in EmptyKeys(d) <==> |d[i].1| == 0)
  {
    if d != [] {
      var init := d[..|d| - 1];
      var last := d[|d| - 1];
      assert Valid(init);
      EmptyKeysExact(init);
      forall i | 0 <= i < |d| ensures d[i].0 in EmptyKeys(d) <==> |d[i].1| == 0 {
        if i < |d| - 1 {
          assert d[i] == init[i];
          assert d[i].0 != last.0;
        } else {
          assert last.0 !in Keys(init);
        }
      }
    }
  }

  lemma {:induction false} RemoveKeysDropEmpty<K, A>(d: ODict<K, seq<A>>, ks: seq<K>)
    requires forall i :: 0 <= i < |d| ==> (d[i].0 in ks <==> |d[i].1| == 0)
    ensures RemoveKeys(d, ks) == DropEmpty(d)
  {
    if d != [] {
      assert forall i :: 0 <= i < |d[1..]| ==> d[1..][i] == d[i + 1];
      RemoveKeysDropEmpty(d[1..], ks);
    }
  }

  /** Collecting the empty-valued keys and then deleting them drops the empty entries. */
  lemma RemoveEmptyKeys<K, A>(d: ODict<K, seq<A>>)
    requires Valid(d)
    ensures RemoveKeys(d, EmptyKeys(d)) == DropEmpty(d)
  {
    EmptyKeysExact(d);
    RemoveKeysDropEmpty(d, EmptyKeys(d));
  }

  lemma {:induction false} DropEmptyIdempotent<K, A>(d: ODict<K, seq<A>>)
    ensures DropEmpty(DropEmpty(d)) == DropEmpty(d)
  {
    if d != [] {
      DropEmptyIdempotent(d[1..]);
    }
  }

  lemma {:induction false} KeysDropEmpty<K, A>(d: ODict<K, seq<A>>)
    ensures forall k :: k in Keys(DropEmpty(d)) ==> k in Keys(d)
    ensures Valid(d) ==> Valid(DropEmpty(d))
  {
    if d != [] {
      KeysDropEmpty(d[1..]);
      if |d[0].1| > 0 && Valid(d) {
        ValidTail(d);
        ValidCons(d[0], DropEmpty(d[1..]));
      }
    }
  }

  lemma {:induction false} RemoveKeysNone<K, V>(d: ODict<K, V>)
    ensures RemoveKeys(d, []) == d
  {
    if d != [] {
      RemoveKeysNone(d[1..]);
    }
  }

  lemma GetCons<K, V>(e: (K, V), r: ODict<K, V>, k: K)
    ensures Get([e] + r, k) == if e.0 == k then Some(e.1) else Get(r, k)
  {
    assert ([e] + r)[1..] == r;
  }

  /** After a deletion the deleted key is absent and every other key reads
      as before. */
  lemma {:induction false} GetRemove<K, V>(d: ODict<K, V>, k: K, k': K)
    ensures Get(Remove(d, k), k') == if k' == k then None else Get(d, k')
    decreases |d|
  {
    if d != [] {
      GetRemove(d[1..], k, k');
      assert d == [d[0]] + d[1..];
      GetCons(d[0], d[1..], k');
      if d[0].0 != k {
        GetCons(d[0], Remove(d[1..], k), k');
      }
    }
  }

  /** Looking a key of a dictionary up after the empty entries are dropped. */
  lemma {:induction false} GetDropEmpty<K, A>(d: ODict<K, seq<A>>, i: nat)
    requires Valid(d) && i < |d|
    ensures Get(DropEmpty(d), d[i].0) == if |d[i].1| > 0 then Some(d[i].1) else None
  {
    ValidTail(d);
    var k := d[i].0;
    var tail := d[1..];
    assert DropEmpty(d) == if |d[0].1| > 0 then [d[0]] + DropEmpty(tail) else DropEmpty(tail);
    if |d[0].1| > 0 {
      GetCons(d[0], DropEmpty(tail), k);
    }
    if i == 0 {
      if |d[0].1| == 0 {
        KeysDropEmpty(tail);
        forall j | 0 <= j < |tail| ensures Keys(tail)[j] != k {
          assert tail[j] == d[j + 1];
        }
        assert k !in Keys(tail);
      }
    } else {
      assert d[i] == tail[i - 1];
      assert k != d[0].0;
      GetDropEmpty(tail, i - 1);
    }
  }
}
