/**
 Least-recently-used replacement on a plain list of entries, most recent first,
 and what it guarantees over whole runs of operations.
 */
module LruSpec {
  import opened Counting

  datatype Op<K, V> = Get(key: K) | Put(key: K, value: V) | Contains(key: K) | Erase(key: K) | Clear

  function Lookup<K(==), V>(es: seq<(K, V)>, k: K): Option<V>
  {
    if es == [] then None else if es[0].0 == k then Some(es[0].1) else Lookup(es[1..], k)
  }

  /** The entries of all other keys, in order. */
  function Without<K(==), V>(es: seq<(K, V)>, k: K): seq<(K, V)>
  {
    if es == [] then []
    else if es[0].0 == k then Without(es[1..], k)
    else [es[0]] + Without(es[1..], k)
  }

  ghost function Keys<K, V>(es: seq<(K, V)>): set<K>
  {
    if es == [] then {} else {es[0].0} + Keys(es[1..])
  }

  ghost predicate DistinctKeys<K, V>(es: seq<(K, V)>) {
    es == [] || (es[0].0 !in Keys(es[1..]) && DistinctKeys(es[1..]))
  }

  /** The list after dropping its least recent entry. */
  function Evict<K, V>(es: seq<(K, V)>): seq<(K, V)>
  {
    if es == [] then [] else es[..|es| - 1]
  }

  /** One operation on a cache of at most `cap` entries. */
  function Apply<K(==), V>(cap: nat, es: seq<(K, V)>, op: Op<K, V>): seq<(K, V)>
  {
    match op
    case Get(k) =>
      var hit := Lookup(es, k);
      if hit.Some? then [(k, hit.value)] + Without(es, k) else es
    case Put(k, v) =>
      if cap == 0 then es
      else if Lookup(es, k).Some? then [(k, v)] + Without(es, k)
      else [(k, v)] + (if |es| >= cap then Evict(es) else es)
    case Contains(_) => es
    case Erase(k) => Without(es, k)
    case Clear => []
  }

  ghost function Exec<K, V>(cap: nat, es: seq<(K, V)>, run: seq<Op<K, V>>): seq<(K, V)>
    decreases |run|
  {
    if run == [] then es else Exec(cap, Apply(cap, es, run[0]), run[1..])
  }

  // ---- Lists of entries ----------------------------------------------------

  lemma {:induction false} LookupSound<K, V>(es: seq<(K, V)>, k: K)
    ensures Lookup(es, k).Some? <==> k in Keys(es)
    ensures Lookup(es, k).Some? ==> (k, Lookup(es, k).value) in es
    decreases |es|
  {
    if es == [] {
    } else {
      LookupSound(es[1..], k);
    }
  }

  lemma {:induction false} KeysAppend<K, V>(a: seq<(K, V)>, b: seq<(K, V)>)
    ensures Keys(a + b) == Keys(a) + Keys(b)
    decreases |a|
  {
    if a == [] {
      assert a + b == b;
    } else {
      assert (a + b)[1..] == a[1..] + b;
      KeysAppend(a[1..], b);
    }
  }

  lemma {:induction false} DistinctAppend<K, V>(a: seq<(K, V)>, b: seq<(K, V)>)
    ensures DistinctKeys(a + b) <==> DistinctKeys(a) && DistinctKeys(b) && Keys(a) !! Keys(b)
    decreases |a|
  {
    if a == [] {
      assert a + b == b;
    } else {
      assert (a + b)[1..] == a[1..] + b;
      KeysAppend(a[1..], b);
      DistinctAppend(a[1..], b);
    }
  }

  /** Distinct keys: there are as many keys as entries. */
  lemma {:induction false} DistinctSize<K, V>(es: seq<(K, V)>)
    requires DistinctKeys(es)
    ensures |Keys(es)| == |es|
    decreases |es|
  {
    if es == [] {
    } else {
      DistinctSize(es[1..]);
    }
  }

  lemma {:induction false} WithoutKeys<K, V>(es: seq<(K, V)>, k: K)
    requires DistinctKeys(es)
    ensures Keys(Without(es, k)) == Keys(es) - {k}
    ensures DistinctKeys(Without(es, k))
    ensures |Without(es, k)| == if k in Keys(es) then |es| - 1 else |es|
    ensures k !in Keys(es) ==> Without(es, k) == es
    decreases |es|
  {
    if es == [] {
    } else {
      WithoutKeys(es[1..], k);
      if es[0].0 != k {
        assert Without(es, k)[1..] == Without(es[1..], k);
      }
    }
  }

  lemma SnocKeys<K, V>(a: seq<(K, V)>, e: (K, V))
    requires DistinctKeys(a + [e])
    ensures Keys(a + [e]) == Keys(a) + {e.0} && e.0 !in Keys(a) && DistinctKeys(a)
  {
    KeysAppend(a, [e]);
    DistinctAppend(a, [e]);
    assert [e][1..] == [] && Keys([e]) == {e.0};
  }

  lemma EvictKeys<K, V>(es: seq<(K, V)>)
    requires DistinctKeys(es)
    ensures Keys(Evict(es)) <= Keys(es) && DistinctKeys(Evict(es))
    ensures es != [] ==> Keys(Evict(es)) == Keys(es) - {es[|es| - 1].0} && es[|es| - 1].0 in Keys(es)
  {
    if es != [] {
      assert es == Evict(es) + [es[|es| - 1]];
      SnocKeys(Evict(es), es[|es| - 1]);
    }
  }

  lemma PrependFresh<K, V>(e: (K, V), es: seq<(K, V)>)
    requires DistinctKeys(es) && e.0 !in Keys(es)
    ensures DistinctKeys([e] + es) && Keys([e] + es) == {e.0} + Keys(es)
  {
    assert ([e] + es)[1..] == es;
  }

  // ---- Distinct keys within capacity ---------------------------------------

  /** Every operation keeps the keys distinct and the list within capacity. */
  lemma ApplyKeepsCache<K, V>(cap: nat, es: seq<(K, V)>, op: Op<K, V>)
    requires DistinctKeys(es) && |es| <= cap
    ensures DistinctKeys(Apply(cap, es, op)) && |Apply(cap, es, op)| <= cap
  {
    if !op.Clear? && !op.Contains? {
      var k := op.key;
      LookupSound(es, k);
      WithoutKeys(es, k);
      EvictKeys(es);
      if op.Put? {
        PrependFresh((k, op.value), Without(es, k));
        if k !in Keys(es) {
          PrependFresh((k, op.value), Evict(es));
        }
      } else if op.Get? && Lookup(es, k).Some? {
        PrependFresh((k, Lookup(es, k).value), Without(es, k));
      }
    }
  }

  lemma {:induction false} ExecKeepsCache<K, V>(cap: nat, es: seq<(K, V)>, run: seq<Op<K, V>>)
    requires DistinctKeys(es) && |es| <= cap
    ensures DistinctKeys(Exec(cap, es, run)) && |Exec(cap, es, run)| <= cap
    decreases |run|
  {
    if run == [] {
    } else {
      ApplyKeepsCache(cap, es, run[0]);
      ExecKeepsCache(cap, Apply(cap, es, run[0]), run[1..]);
    }
  }

  // ---- A larger cache holds everything a smaller one holds -----------------

  /** `a` is a subsequence of `b`: the same entries in the same order, with gaps. */
  ghost predicate Sub<K, V>(a: seq<(K, V)>, b: seq<(K, V)>)
    decreases |b|
  {
    a == [] || (b != [] && ((a[0] == b[0] && Sub(a[1..], b[1..])) || Sub(a, b[1..])))
  }

  lemma {:induction false} SubKeys<K, V>(a: seq<(K, V)>, b: seq<(K, V)>)
    requires Sub(a, b)
    ensures Keys(a) <= Keys(b)
    ensures |a| <= |b|
    decreases |b|
  {
    if a == [] {
    } else {
      if a[0] == b[0] && Sub(a[1..], b[1..]) {
        SubKeys(a[1..], b[1..]);
      } else {
        SubKeys(a, b[1..]);
      }
    }
  }

  lemma {:induction false} SubLookup<K, V>(a: seq<(K, V)>, b: seq<(K, V)>, k: K)
    requires Sub(a, b) && DistinctKeys(b) && Lookup(a, k).Some?
    ensures Lookup(b, k) == Lookup(a, k)
    decreases |b|
  {
    if a[0] == b[0] && Sub(a[1..], b[1..]) {
      if a[0].0 != k {
        SubLookup(a[1..], b[1..], k);
      }
    } else {
      LookupSound(a, k);
      SubKeys(a, b[1..]);
      SubLookup(a, b[1..], k);
    }
  }

  lemma {:induction false} SubWithout<K, V>(a: seq<(K, V)>, b: seq<(K, V)>, k: K)
    requires Sub(a, b)
    ensures Sub(Without(a, k), Without(b, k))
    decreases |b|
  {
    if a == [] {
    } else {
      if a[0] == b[0] && Sub(a[1..], b[1..]) {
        SubWithout(a[1..], b[1..], k);
        if a[0].0 != k {
          SubPrepend(a[0], Without(a[1..], k), Without(b[1..], k));
        }
      } else {
        SubWithout(a, b[1..], k);
        if b[0].0 != k {
          SubSkip(b[0], Without(a, k), Without(b[1..], k));
        }
      }
    }
  }

  lemma SubPrepend<K, V>(e: (K, V), a: seq<(K, V)>, b: seq<(K, V)>)
    requires Sub(a, b)
    ensures Sub([e] + a, [e] + b)
  {
    assert ([e] + a)[1..] == a && ([e] + b)[1..] == b;
  }

  lemma SubSkip<K, V>(e: (K, V), a: seq<(K, V)>, b: seq<(K, V)>)
    requires Sub(a, b)
    ensures Sub(a, [e] + b)
  {
    assert ([e] + b)[1..] == b;
  }

  lemma EvictTail<K, V>(es: seq<(K, V)>)
    requires |es| > 1
    ensures Evict(es) == [es[0]] + Evict(es[1..]) && Evict(es)[1..] == Evict(es[1..])
  {
    assert es[..|es| - 1] == [es[0]] + es[1..][..|es| - 2];
  }

  lemma {:induction false} SubEvict<K, V>(a: seq<(K, V)>, b: seq<(K, V)>)
    requires Sub(a, b)
    ensures Sub(Evict(a), Evict(b))
    decreases |b|
  {
    if a != [] && |b| > 1 {
      if a[0] == b[0] && Sub(a[1..], b[1..]) {
        SubEvict(a[1..], b[1..]);
        EvictTail(b);
        if |a| > 1 {
          EvictTail(a);
        }
      } else {
        SubEvict(a, b[1..]);
        EvictTail(b);
      }
    } else if a != [] {
      SubKeys(a, b);
    }
  }

  lemma {:induction false} SubDrop<K, V>(a: seq<(K, V)>, b: seq<(K, V)>)
    requires Sub(a, b)
    ensures Sub(Evict(a), b)
    decreases |b|
  {
    if |a| <= 1 {
    } else {
      if a[0] == b[0] && Sub(a[1..], b[1..]) {
        SubDrop(a[1..], b[1..]);
        EvictTail(a);
      } else {
        SubDrop(a, b[1..]);
      }
    }
  }

  lemma {:induction false} SubReflexive<K, V>(a: seq<(K, V)>)
    ensures Sub(a, a)
    decreases |a|
  {
    if a == [] {
    } else {
      SubReflexive(a[1..]);
    }
  }

  /**
   The smaller cache's list is a subsequence of the larger's, and the larger holds
   at most the difference of the capacities more, so it is not full while the smaller is not.
   */
  ghost predicate Included<K, V>(small: nat, large: nat, a: seq<(K, V)>, b: seq<(K, V)>) {
    Sub(a, b) && |b| + small <= |a| + large
  }

  ghost predicate Cache<K, V>(cap: nat, es: seq<(K, V)>) {
    DistinctKeys(es) && |es| <= cap
  }

  lemma GetKeepsIncluded<K, V>(small: nat, large: nat, a: seq<(K, V)>, b: seq<(K, V)>, k: K)
    requires Cache(small, a) && Cache(large, b) && Included(small, large, a, b)
    ensures Included(small, large, Apply(small, a, Get(k)), Apply(large, b, Get(k)))
  {
    LookupSound(a, k);
    LookupSound(b, k);
    WithoutKeys(a, k);
    WithoutKeys(b, k);
    SubWithout(a, b, k);
    if Lookup(a, k).Some? {
      SubLookup(a, b, k);
      SubPrepend((k, Lookup(a, k).value), Without(a, k), Without(b, k));
    } else if Lookup(b, k).Some? {
      SubSkip((k, Lookup(b, k).value), a, Without(b, k));
    }
  }

  lemma PutKeepsIncluded<K, V>(small: nat, large: nat, a: seq<(K, V)>, b: seq<(K, V)>, k: K, v: V)
    requires small <= large && Cache(small, a) && Cache(large, b) && Included(small, large, a, b)
    ensures Included(small, large, Apply(small, a, Put(k, v)), Apply(large, b, Put(k, v)))
  {
    LookupSound(a, k);
    LookupSound(b, k);
    SubKeys(a, b);
    WithoutKeys(a, k);
    WithoutKeys(b, k);
    SubWithout(a, b, k);
    SubDrop(a, b);
    if Lookup(a, k).None? {
      SubDrop(a, Without(b, k));
    }
    SubEvict(a, b);
    var rest := if Lookup(a, k).Some? then Without(a, k) else if |a| >= small then Evict(a) else a;
    var rest' := if Lookup(b, k).Some? then Without(b, k) else if |b| >= large then Evict(b) else b;
    if small > 0 {
      SubPrepend((k, v), rest, rest');
    }
  }

  /** One operation on both caches keeps the smaller one included. */
  lemma ApplyKeepsIncluded<K, V>(small: nat, large: nat, a: seq<(K, V)>, b: seq<(K, V)>, op: Op<K, V>)
    requires small <= large
    requires Cache(small, a) && Cache(large, b) && Included(small, large, a, b)
    ensures Included(small, large, Apply(small, a, op), Apply(large, b, op))
  {
    match op
    case Get(k) => GetKeepsIncluded(small, large, a, b, k);
    case Put(k, v) => PutKeepsIncluded(small, large, a, b, k, v);
    case Erase(k) =>
      SubWithout(a, b, k);
      SubKeys(a, b);
      WithoutKeys(a, k);
      WithoutKeys(b, k);
    case _ =>
  }

  lemma {:induction false} ExecKeepsIncluded<K, V>(
    small: nat, large: nat, a: seq<(K, V)>, b: seq<(K, V)>, run: seq<Op<K, V>>)
    requires small <= large
    requires Cache(small, a) && Cache(large, b) && Included(small, large, a, b)
    ensures Included(small, large, Exec(small, a, run), Exec(large, b, run))
    decreases |run|
  {
    if run == [] {
    } else {
      ApplyKeepsIncluded(small, large, a, b, run[0]);
      ApplyKeepsCache(small, a, run[0]);
      ApplyKeepsCache(large, b, run[0]);
      ExecKeepsIncluded(small, large, Apply(small, a, run[0]), Apply(large, b, run[0]), run[1..]);
    }
  }

  /**
   Two caches given the same run: the smaller one's entries are, in order, among
   the larger one's, and every hit in the smaller is the same hit in the larger.
   */
  lemma LargerCacheHitsToo<K, V>(small: nat, large: nat, run: seq<Op<K, V>>, k: K)
    requires small <= large
    ensures
      var a, b := Exec(small, [], run), Exec(large, [], run);
      Sub(a, b) && (Lookup(a, k).Some? ==> Lookup(b, k) == Lookup(a, k))
  {
    var a, b := Exec(small, [], run), Exec(large, [], run);
    ExecKeepsIncluded<K, V>(small, large, [], [], run);
    ExecKeepsCache<K, V>(large, [], run);
    if Lookup(a, k).Some? {
      SubLookup(a, b, k);
    }
  }

  // ---- How long a touched key survives -------------------------------------

  /** The key an operation makes most recent, if any. */
  ghost function Touches<K, V>(es: seq<(K, V)>, op: Op<K, V>): set<K> {
    match op
    case Get(k) => if Lookup(es, k).Some? then {k} else {}
    case Put(k, _) => {k}
    case _ => {}
  }

  /** The distinct keys a run puts or hits. */
  ghost function TouchedBy<K, V>(cap: nat, es: seq<(K, V)>, run: seq<Op<K, V>>): set<K>
    decreases |run|
  {
    if run == [] then {} else Touches(es, run[0]) + TouchedBy(cap, Apply(cap, es, run[0]), run[1..])
  }

  /** The run neither erases, nor clears, nor puts or gets `k`. */
  ghost predicate LeavesAlone<K, V>(run: seq<Op<K, V>>, k: K) {
    forall i :: 0 <= i < |run| ==>
      !run[i].Erase? && !run[i].Clear? && (run[i].Get? || run[i].Put? ==> run[i].key != k)
  }

  lemma {:induction false} WithoutAppend<K, V>(a: seq<(K, V)>, b: seq<(K, V)>, k: K)
    ensures Without(a + b, k) == Without(a, k) + Without(b, k)
    decreases |a|
  {
    if a == [] {
      assert a + b == b;
    } else {
      assert (a + b)[1..] == a[1..] + b;
      WithoutAppend(a[1..], b, k);
    }
  }

  /** A key that is gone stays gone until it is put again. */
  lemma {:induction false} GoneStaysGone<K, V>(cap: nat, es: seq<(K, V)>, run: seq<Op<K, V>>, k: K)
    requires Cache(cap, es) && k !in Keys(es) && LeavesAlone(run, k)
    ensures k !in Keys(Exec(cap, es, run))
    decreases |run|
  {
    if run == [] {
    } else {
      var es' := Apply(cap, es, run[0]);
      ApplyKeepsCache(cap, es, run[0]);
      ApplyKeys(cap, es, run[0]);
      GoneStaysGone(cap, es', run[1..], k);
    }
  }

  /** An operation brings in no key but its own. */
  lemma ApplyKeys<K, V>(cap: nat, es: seq<(K, V)>, op: Op<K, V>)
    requires Cache(cap, es)
    ensures Keys(Apply(cap, es, op)) <= Keys(es) + Touches(es, op)
  {
    if op.Get? || op.Put? || op.Erase? {
      WithoutKeys(es, op.key);
      EvictKeys(es);
      KeysOfCons(Apply(cap, es, op));
      if op.Get? && Lookup(es, op.key).Some? {
        assert Apply(cap, es, op)[1..] == Without(es, op.key);
      } else if op.Put? && cap > 0 {
        assert Apply(cap, es, op)[1..] ==
               if Lookup(es, op.key).Some? then Without(es, op.key) else if |es| >= cap then Evict(es) else es;
      }
    }
  }

  lemma KeysOfCons<K, V>(es: seq<(K, V)>)
    ensures es != [] ==> Keys(es) == {es[0].0} + Keys(es[1..])
  {
  }

  /** The list split at `k`: what is ahead of it, its entry, and what is behind. */
  ghost predicate SplitAt<K, V>(es: seq<(K, V)>, front: seq<(K, V)>, k: K, v: V, back: seq<(K, V)>) {
    es == front + [(k, v)] + back
  }

  lemma SplitKeys<K, V>(cap: nat, es: seq<(K, V)>, front: seq<(K, V)>, k: K, v: V, back: seq<(K, V)>)
    requires Cache(cap, es) && SplitAt(es, front, k, v, back)
    ensures DistinctKeys(front) && DistinctKeys(back) && k !in Keys(front) && k !in Keys(back) && Keys(front) !! Keys(back)
    ensures Keys(es) == Keys(front) + {k} + Keys(back)
    ensures |Keys(front)| == |front| < cap
  {
    assert Keys([(k, v)]) == {k};
    DistinctAppend(front, [(k, v)]);
    DistinctAppend(front + [(k, v)], back);
    KeysAppend(front, [(k, v)]);
    KeysAppend(front + [(k, v)], back);
    DistinctSize(front);
  }

  /** A put or hit of a cached key moves it ahead of `k`. */
  lemma TouchCached<K, V>(front: seq<(K, V)>, k: K, v: V, back: seq<(K, V)>, j: K, x: V)
    requires DistinctKeys(front) && j != k
    ensures
      var front' := [(j, x)] + Without(front, j);
      && [(j, x)] + Without(front + [(k, v)] + back, j) == front' + [(k, v)] + Without(back, j)
      && Keys(front') == Keys(front) + {j}
  {
    WithoutAppend(front + [(k, v)], back, j);
    WithoutAppend(front, [(k, v)], j);
    WithoutKeys(front, j);
    assert ([(j, x)] + Without(front, j))[1..] == Without(front, j);
  }

  /** A put of a new key goes ahead of `k` and evicts from behind it, as long as something is behind it. */
  lemma PutNew<K, V>(cap: nat, front: seq<(K, V)>, k: K, v: V, back: seq<(K, V)>, j: K, x: V)
    requires back != [] || |front| + 1 < cap
    ensures
      var es, front' := front + [(k, v)] + back, [(j, x)] + front;
      && [(j, x)] + (if |es| >= cap then Evict(es) else es)
         == front' + [(k, v)] + (if |es| >= cap then Evict(back) else back)
      && Keys(front') == Keys(front) + {j}
  {
    assert ([(j, x)] + front)[1..] == front;
  }

  /** The outcome of one operation on another key, seen from `k`. */
  ghost predicate Ahead<K, V>(
    cap: nat, es: seq<(K, V)>, ahead: set<K>, k: K, v: V, kept: bool, es': seq<(K, V)>, front': seq<(K, V)>, back': seq<(K, V)>) {
    if kept then SplitAt(es', front', k, v, back') && Keys(front') == ahead
    else k !in Keys(es') && |ahead| == cap
  }

  lemma StepCached<K, V>(cap: nat, es: seq<(K, V)>, front: seq<(K, V)>, k: K, v: V, back: seq<(K, V)>, op: Op<K, V>)
    returns (front': seq<(K, V)>, back': seq<(K, V)>)
    requires SplitAt(es, front, k, v, back) && DistinctKeys(front) && cap > 0
    requires (op.Get? || op.Put?) && op.key != k && Lookup(es, op.key).Some?
    ensures Ahead(cap, es, Keys(front) + Touches(es, op), k, v, true, Apply(cap, es, op), front', back')
  {
    var x := if op.Put? then op.value else Lookup(es, op.key).value;
    TouchCached(front, k, v, back, op.key, x);
    front', back' := [(op.key, x)] + Without(front, op.key), Without(back, op.key);
  }

  lemma StepNew<K, V>(cap: nat, es: seq<(K, V)>, front: seq<(K, V)>, k: K, v: V, back: seq<(K, V)>, op: Op<K, V>)
    returns (kept: bool, front': seq<(K, V)>, back': seq<(K, V)>)
    requires SplitAt(es, front, k, v, back) && |Keys(front)| == |front| < cap
    requires k !in Keys(front) && |es| <= cap
    requires op.Put? && op.key != k && Lookup(es, op.key).None? && op.key !in Keys(front)
    ensures Ahead(cap, es, Keys(front) + Touches(es, op), k, v, kept, Apply(cap, es, op), front', back')
  {
    var e := (op.key, op.value);
    if back != [] || |front| + 1 < cap {
      PutNew(cap, front, k, v, back, op.key, op.value);
      kept, front', back' := true, [e] + front, if |es| >= cap then Evict(back) else back;
    } else {
      kept, front', back' := false, front, back;
      assert Evict(es) == front;
      var es' := Apply(cap, es, op);
      assert es' == [e] + front && es'[1..] == front;
      assert Keys(es') == {op.key} + Keys(front);
      assert |Keys(front) + {op.key}| == |front| + 1;
    }
  }

  /**
   An operation on another key either keeps `k`, with the touched key ahead of it,
   or evicts it, and then `cap` distinct keys have been ahead of it.
   */
  lemma StepAhead<K, V>(cap: nat, es: seq<(K, V)>, front: seq<(K, V)>, k: K, v: V, back: seq<(K, V)>, op: Op<K, V>)
    returns (kept: bool, front': seq<(K, V)>, back': seq<(K, V)>)
    requires Cache(cap, es) && SplitAt(es, front, k, v, back)
    requires !op.Erase? && !op.Clear? && (op.Get? || op.Put? ==> op.key != k)
    ensures Ahead(cap, es, Keys(front) + Touches(es, op), k, v, kept, Apply(cap, es, op), front', back')
  {
    SplitKeys(cap, es, front, k, v, back);
    kept, front', back' := true, front, back;
    if op.Get? || op.Put? {
      LookupSound(es, op.key);
      if Lookup(es, op.key).Some? {
        front', back' := StepCached(cap, es, front, k, v, back, op);
      } else if op.Put? {
        kept, front', back' := StepNew(cap, es, front, k, v, back, op);
      }
    }
  }

  lemma SurvivalNow<K, V>(cap: nat, es: seq<(K, V)>, front: seq<(K, V)>, k: K, v: V, back: seq<(K, V)>)
    requires Cache(cap, es) && SplitAt(es, front, k, v, back)
    ensures k in Keys(es) && |Keys(front) + {}| < cap
  {
    SplitKeys(cap, es, front, k, v, back);
    assert Keys(front) + {} == Keys(front);
  }

  lemma {:induction false} SurvivalFrom<K, V>(
    cap: nat, es: seq<(K, V)>, front: seq<(K, V)>, k: K, v: V, back: seq<(K, V)>, run: seq<Op<K, V>>)
    requires Cache(cap, es) && SplitAt(es, front, k, v, back) && LeavesAlone(run, k)
    ensures k in Keys(Exec(cap, es, run)) <==> |Keys(front) + TouchedBy(cap, es, run)| < cap
    decreases |run|
  {
    if run == [] {
      SurvivalNow(cap, es, front, k, v, back);
    } else {
      var op, es' := run[0], Apply(cap, es, run[0]);
      var kept, front', back' := StepAhead(cap, es, front, k, v, back, op);
      ApplyKeepsCache(cap, es, op);
      var later := TouchedBy(cap, es', run[1..]);
      if kept {
        SurvivalFrom(cap, es', front', k, v, back', run[1..]);
      } else {
        GoneStaysGone(cap, es', run[1..], k);
      }
      Combine(cap, Keys(front), Touches(es, op), later, kept, k in Keys(Exec(cap, es', run[1..])));
    }
  }

  lemma Combine<K>(cap: nat, ahead: set<K>, touched: set<K>, later: set<K>, kept: bool, cached: bool)
    requires kept ==> (cached <==> |ahead + touched + later| < cap)
    requires !kept ==> !cached && |ahead + touched| == cap
    ensures cached <==> |ahead + (touched + later)| < cap
  {
    assert ahead + touched + later == ahead + (touched + later);
    SubsetSize(ahead + touched, ahead + touched + later);
  }

  lemma FrontSurvives<K, V>(cap: nat, es: seq<(K, V)>, run: seq<Op<K, V>>)
    requires Cache(cap, es) && es != [] && LeavesAlone(run, es[0].0)
    ensures es[0].0 in Keys(Exec(cap, es, run)) <==> |TouchedBy(cap, es, run)| < cap
  {
    assert es == [] + [(es[0].0, es[0].1)] + es[1..];
    SurvivalFrom(cap, es, [], es[0].0, es[0].1, es[1..], run);
    assert Keys<K, V>([]) + TouchedBy(cap, es, run) == TouchedBy(cap, es, run);
  }

  lemma {:induction false} ExecInTwo<K, V>(cap: nat, es: seq<(K, V)>, a: seq<Op<K, V>>, b: seq<Op<K, V>>)
    ensures Exec(cap, es, a + b) == Exec(cap, Exec(cap, es, a), b)
    decreases |a|
  {
    if a == [] {
      assert a + b == b;
    } else {
      assert (a + b)[1..] == a[1..] + b;
      ExecInTwo(cap, Apply(cap, es, a[0]), a[1..], b);
    }
  }

  /**
   Exactly how long a key survives, in any cache: after a put or a hit of a key, through any run
   that neither erases, clears, puts nor gets it, the key is still cached if and only if fewer
   than `cap` distinct other keys have been put or hit since.
   */
  lemma TouchedKeySurvives<K, V>(cap: nat, before: seq<Op<K, V>>, touch: Op<K, V>, run: seq<Op<K, V>>)
    requires touch.Put? || (touch.Get? && Lookup(Exec(cap, [], before), touch.key).Some?)
    requires LeavesAlone(run, touch.key)
    ensures
      var touched := Exec(cap, [], before + [touch]);
      touch.key in Keys(Exec(cap, [], before + [touch] + run)) <==> |TouchedBy(cap, touched, run)| < cap
  {
    var es := Exec(cap, [], before);
    ExecKeepsCache<K, V>(cap, [], before);
    ApplyKeepsCache(cap, es, touch);
    ExecInTwo(cap, [], before, [touch]);
    assert [touch][1..] == [];
    assert Exec(cap, [], before + [touch]) == Apply(cap, es, touch);
    ExecInTwo(cap, [], before + [touch], run);
    if cap == 0 {
      ExecKeepsCache(cap, Apply(cap, es, touch), run);
    } else {
      FrontSurvives(cap, Apply(cap, es, touch), run);
    }
  }

  // ---- What operations do to the list --------------------------------------

  lemma {:induction false} LookupAt<K, V>(a: seq<(K, V)>, k: K, v: V, b: seq<(K, V)>)
    requires k !in Keys(a)
    ensures Lookup(a + [(k, v)] + b, k) == Some(v)
    decreases |a|
  {
    if a == [] {
      assert a + [(k, v)] + b == [(k, v)] + b;
    } else {
      assert (a + [(k, v)] + b)[1..] == a[1..] + [(k, v)] + b;
      LookupAt(a[1..], k, v, b);
    }
  }

  lemma {:induction false} WithoutAbsentKey<K, V>(es: seq<(K, V)>, k: K)
    requires k !in Keys(es)
    ensures Without(es, k) == es && Lookup(es, k) == None
    decreases |es|
  {
    if es == [] {
    } else {
      WithoutAbsentKey(es[1..], k);
    }
  }

  lemma {:induction false} WithoutAt<K, V>(a: seq<(K, V)>, k: K, v: V, b: seq<(K, V)>)
    requires k !in Keys(a) && k !in Keys(b)
    ensures Without(a + [(k, v)] + b, k) == a + b
    decreases |a|
  {
    if a == [] {
      assert a + [(k, v)] + b == [(k, v)] + b && a + b == b;
      assert ([(k, v)] + b)[1..] == b;
      WithoutAbsentKey(b, k);
    } else {
      assert (a + [(k, v)] + b)[1..] == a[1..] + [(k, v)] + b;
      WithoutAt(a[1..], k, v, b);
      assert [a[0]] + (a[1..] + b) == a + b;
    }
  }

  /** On a key that is cached: a hit moves its entry to the front, a put also sets its value, an erase takes it out. */
  lemma OnCachedKey<K, V>(cap: nat, a: seq<(K, V)>, k: K, v: V, b: seq<(K, V)>, w: V)
    requires k !in Keys(a) && k !in Keys(b)
    ensures
      var es := a + [(k, v)] + b;
      && Lookup(es, k) == Some(v)
      && Apply(cap, es, Get(k)) == [(k, v)] + (a + b)
      && Apply(cap, es, Put(k, w)) == (if cap == 0 then es else [(k, w)] + (a + b))
      && Apply(cap, es, Erase(k)) == a + b
      && Apply(cap, es, Contains(k)) == es && Apply(cap, es, Clear) == []
  {
    LookupAt(a, k, v, b);
    WithoutAt(a, k, v, b);
  }

  /** On a key that is not: only a put changes anything; it goes in front, and the last entry makes room in a full cache. */
  lemma OnAbsentKey<K, V>(cap: nat, es: seq<(K, V)>, k: K, w: V)
    requires k !in Keys(es)
    ensures Lookup(es, k) == None && Apply(cap, es, Get(k)) == Apply(cap, es, Erase(k)) == Apply(cap, es, Contains(k)) == es
    ensures
      Apply(cap, es, Put(k, w)) ==
      if cap == 0 then es else if |es| < cap then [(k, w)] + es else [(k, w)] + es[..|es| - 1]
  {
    WithoutAbsentKey(es, k);
  }

  /** The value of the last put of `k` in a run, if it was not erased or cleared since. */
  ghost function LastPut<K, V>(run: seq<Op<K, V>>, k: K): Option<V>
    decreases |run|
  {
    if run == [] then None
    else
      var op := run[|run| - 1];
      if op.Put? && op.key == k then Some(op.value)
      else if op.Clear? || (op.Erase? && op.key == k) then None
      else LastPut(run[..|run| - 1], k)
  }

  lemma {:induction false} LookupWithout<K, V>(es: seq<(K, V)>, k: K, x: K)
    ensures Lookup(Without(es, k), x) == if x == k then None else Lookup(es, x)
    decreases |es|
  {
    if es == [] {
    } else {
      LookupWithout(es[1..], k, x);
    }
  }

  lemma {:induction false} LookupEvict<K, V>(es: seq<(K, V)>, x: K)
    ensures Lookup(Evict(es), x).Some? ==> Lookup(es, x) == Lookup(Evict(es), x)
    decreases |es|
  {
    if |es| <= 1 {
    } else {
      assert Evict(es)[1..] == Evict(es[1..]);
      LookupEvict(es[1..], x);
    }
  }

  lemma LookupCons<K, V>(k: K, v: V, es: seq<(K, V)>, x: K)
    ensures Lookup([(k, v)] + es, x) == if x == k then Some(v) else Lookup(es, x)
  {
    assert ([(k, v)] + es)[1..] == es;
  }

  /** What a key is mapped to after an operation, if it is still cached. */
  lemma LookupAfter<K, V>(cap: nat, es: seq<(K, V)>, op: Op<K, V>, x: K)
    ensures
      var after := Lookup(Apply(cap, es, op), x);
      after.Some? ==>
        if op.Put? && op.key == x && cap > 0 then after == Some(op.value)
        else !op.Clear? && !(op.Erase? && op.key == x) && after == Lookup(es, x)
  {
    match op
    case Get(k) =>
      if Lookup(es, k).Some? {
        LookupCons(k, Lookup(es, k).value, Without(es, k), x);
        LookupWithout(es, k, x);
      }
    case Put(k, v) =>
      LookupWithout(es, k, x);
      LookupEvict(es, x);
      LookupCons(k, v, Without(es, k), x);
      LookupCons(k, v, Evict(es), x);
      LookupCons(k, v, es, x);
    case Contains(_) =>
    case Erase(k) => LookupWithout(es, k, x);
    case Clear =>
  }

  lemma {:induction false} ExecLast<K, V>(cap: nat, es: seq<(K, V)>, run: seq<Op<K, V>>)
    requires run != []
    ensures Exec(cap, es, run) == Apply(cap, Exec(cap, es, run[..|run| - 1]), run[|run| - 1])
    decreases |run|
  {
    if |run| == 1 {
      assert run[..0] == [] && run[1..] == [];
    } else {
      var init := run[..|run| - 1];
      assert init[0] == run[0] && run[1..][..|run| - 2] == init[1..] && run[1..][|run| - 2] == run[|run| - 1];
      ExecLast(cap, Apply(cap, es, run[0]), run[1..]);
    }
  }

  lemma {:induction false} NothingWithoutRoom<K, V>(run: seq<Op<K, V>>)
    ensures Exec<K, V>(0, [], run) == []
    decreases |run|
  {
    if run == [] {
    } else {
      NothingWithoutRoom(run[1..]);
    }
  }

  /** After any run a cached key has the value it was last put with, and was not erased or cleared since. */
  lemma {:induction false} LastPutWins<K, V>(cap: nat, run: seq<Op<K, V>>, k: K)
    ensures Lookup(Exec(cap, [], run), k).Some? ==> Lookup(Exec(cap, [], run), k) == LastPut(run, k)
    decreases |run|
  {
    if run == [] {
    } else if cap == 0 {
      NothingWithoutRoom(run);
    } else {
      var init := run[..|run| - 1];
      ExecLast(cap, [], run);
      LastPutWins(cap, init, k);
      LookupAfter(cap, Exec(cap, [], init), run[|run| - 1], k);
    }
  }
}
