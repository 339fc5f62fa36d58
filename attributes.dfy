/**
 * A widget's attributes: a JavaScript object from attribute names to primitive
 * values, kept as a list of pairs in the object's key-insertion order (the
 * order in which `_.forEach` visits them).
 *
 * `Set` is an assignment `obj[k] = v` (an existing key keeps its place, a new
 * key goes last), `Remove` is `delete obj[k]`, and `Merge` is lodash's
 * `_.merge` restricted to primitive-valued sources.
 */
module Attributes {
  import opened JsValues

  type Attrs = seq<(string, JsValue)>

  function Keys(a: Attrs): (ks: set<string>) {
    if a == [] then {} else {a[0].0} + Keys(a[1..])
  }

  predicate Has(a: Attrs, k: string) {
    k in Keys(a)
  }

  /** Property names of a JavaScript object are unique. */
  predicate UniqueKeys(a: Attrs) {
    a == [] || (a[0].0 !in Keys(a[1..]) && UniqueKeys(a[1..]))
  }

  /** `obj[k]`: the value stored under `k`, `undefined` when there is none. */
  function Get(a: Attrs, k: string): (v: JsValue) {
    if a == [] then Undefined else if a[0].0 == k then a[0].1 else Get(a[1..], k)
  }

  /** `obj[k] = v`. */
  function Set(a: Attrs, k: string, v: JsValue): (r: Attrs) {
    if a == [] then [(k, v)]
    else if a[0].0 == k then [(k, v)] + a[1..]
    else [a[0]] + Set(a[1..], k, v)
  }

  /** `delete obj[k]`. */
  function Remove(a: Attrs, k: string): (r: Attrs) {
    if a == [] then []
    else if a[0].0 == k then Remove(a[1..], k)
    else [a[0]] + Remove(a[1..], k)
  }

  /** One property copy of `_.merge`: an `undefined` source value never overwrites an existing key. */
  function Assign(a: Attrs, p: (string, JsValue)): (r: Attrs) {
    if p.1 == Undefined && Has(a, p.0) then a else Set(a, p.0, p.1)
  }

  /** `_.merge(base, over)` for an `over` whose values are primitives: `over`'s keys in order. */
  function Merge(base: Attrs, over: Attrs): (r: Attrs)
    decreases |over|
  {
    if over == [] then base else Merge(Assign(base, over[0]), over[1..])
  }

  // ---------------------------------------------------------------------------
  // Keys, Has, Get

  lemma {:induction false} GetMissing(a: Attrs, k: string)
    requires !Has(a, k)
    ensures Get(a, k) == Undefined
  {
    if a != [] { GetMissing(a[1..], k); }
  }

  /** Adding a property at the end adds its key; with a new key, the keys stay unique. */
  lemma {:induction false} SnocKeys(a: Attrs, p: (string, JsValue))
    ensures Keys(a + [p]) == Keys(a) + {p.0}
    ensures UniqueKeys(a) && p.0 !in Keys(a) ==> UniqueKeys(a + [p])
  {
    if a == [] {
      assert a + [p] == [p];
      assert [p][1..] == [];
    } else {
      assert (a + [p])[1..] == a[1..] + [p];
      SnocKeys(a[1..], p);
    }
  }

  // ---------------------------------------------------------------------------
  // Set

  lemma {:induction false} SetGet(a: Attrs, k: string, v: JsValue, k': string)
    ensures Get(Set(a, k, v), k') == if k' == k then v else Get(a, k')
  {
    if a != [] && a[0].0 != k { SetGet(a[1..], k, v, k'); }
  }

  lemma {:induction false} SetKeys(a: Attrs, k: string, v: JsValue)
    ensures Keys(Set(a, k, v)) == Keys(a) + {k}
  {
    if a != [] {
      if a[0].0 == k {
        assert ([(k, v)] + a[1..])[1..] == a[1..];
      } else {
        SetKeys(a[1..], k, v);
        assert ([a[0]] + Set(a[1..], k, v))[1..] == Set(a[1..], k, v);
      }
    }
  }

  lemma {:induction false} SetUnique(a: Attrs, k: string, v: JsValue)
    requires UniqueKeys(a)
    ensures UniqueKeys(Set(a, k, v))
  {
    if a != [] {
      if a[0].0 == k {
        assert ([(k, v)] + a[1..])[1..] == a[1..];
      } else {
        SetUnique(a[1..], k, v);
        SetKeys(a[1..], k, v);
        assert ([a[0]] + Set(a[1..], k, v))[1..] == Set(a[1..], k, v);
      }
    }
  }

  /** An assignment keeps every existing key in its place and adds at most one at the end. */
  lemma {:induction false} SetPrefix(a: Attrs, k: string, v: JsValue)
    ensures |a| <= |Set(a, k, v)| <= |a| + 1
    ensures forall i :: 0 <= i < |a| ==> Set(a, k, v)[i].0 == a[i].0
  {
    if a != [] && a[0].0 != k { SetPrefix(a[1..], k, v); }
  }

  lemma {:induction false} SetSet(a: Attrs, k: string, v: JsValue)
    ensures Set(Set(a, k, v), k, v) == Set(a, k, v)
  {
    if a != [] && a[0].0 != k {
      SetSet(a[1..], k, v);
      assert ([a[0]] + Set(a[1..], k, v))[1..] == Set(a[1..], k, v);
    }
  }

  // ---------------------------------------------------------------------------
  // Remove

  lemma {:induction false} RemoveGet(a: Attrs, k: string, k': string)
    ensures Get(Remove(a, k), k') == if k' == k then Undefined else Get(a, k')
  {
    if a != [] { RemoveGet(a[1..], k, k'); }
  }

  lemma {:induction false} RemoveKeys(a: Attrs, k: string)
    ensures Keys(Remove(a, k)) == Keys(a) - {k}
  {
    if a != [] {
      RemoveKeys(a[1..], k);
      if a[0].0 != k {
        assert ([a[0]] + Remove(a[1..], k))[1..] == Remove(a[1..], k);
      }
    }
  }

  lemma {:induction false} RemoveUnique(a: Attrs, k: string)
    requires UniqueKeys(a)
    ensures UniqueKeys(Remove(a, k))
  {
    if a != [] {
      RemoveUnique(a[1..], k);
      RemoveKeys(a[1..], k);
      if a[0].0 != k {
        assert ([a[0]] + Remove(a[1..], k))[1..] == Remove(a[1..], k);
      }
    }
  }

  lemma {:induction false} RemoveRemove(a: Attrs, k: string)
    ensures Remove(Remove(a, k), k) == Remove(a, k)
  {
    if a != [] {
      RemoveRemove(a[1..], k);
      if a[0].0 != k {
        assert ([a[0]] + Remove(a[1..], k))[1..] == Remove(a[1..], k);
      }
    }
  }

  // ---------------------------------------------------------------------------
  // Merge

  lemma AssignGet(a: Attrs, p: (string, JsValue), k: string)
    ensures Get(Assign(a, p), k) == if k == p.0 && p.1 != Undefined then p.1 else Get(a, k)
  {
    SetGet(a, p.0, p.1, k);
    if p.1 == Undefined && !Has(a, p.0) && k == p.0 {
      GetMissing(a, k);
    }
  }

  /**
   * After `_.merge(base, over)` a key holds `over`'s value unless that value
   * is `undefined`, in which case it holds `base`'s.
   */
  lemma {:induction false} MergeGet(base: Attrs, over: Attrs, k: string)
    requires UniqueKeys(over)
    ensures Get(Merge(base, over), k) == if Get(over, k) != Undefined then Get(over, k) else Get(base, k)
    decreases |over|
  {
    if over != [] {
      MergeGet(Assign(base, over[0]), over[1..], k);
      AssignGet(base, over[0], k);
      if k == over[0].0 {
        GetMissing(over[1..], k);
      }
    }
  }

  lemma {:induction false} MergeKeys(base: Attrs, over: Attrs)
    ensures Keys(Merge(base, over)) == Keys(base) + Keys(over)
    decreases |over|
  {
    if over != [] {
      MergeKeys(Assign(base, over[0]), over[1..]);
      SetKeys(base, over[0].0, over[0].1);
    }
  }

  lemma {:induction false} MergeUnique(base: Attrs, over: Attrs)
    requires UniqueKeys(base)
    ensures UniqueKeys(Merge(base, over))
    decreases |over|
  {
    if over != [] {
      SetUnique(base, over[0].0, over[0].1);
      MergeUnique(Assign(base, over[0]), over[1..]);
    }
  }

  /** Merging never moves the keys already in `base`. */
  lemma {:induction false} MergePrefix(base: Attrs, over: Attrs)
    ensures |base| <= |Merge(base, over)|
    ensures forall i :: 0 <= i < |base| ==> Merge(base, over)[i].0 == base[i].0
    decreases |over|
  {
    if over != [] {
      SetPrefix(base, over[0].0, over[0].1);
      MergePrefix(Assign(base, over[0]), over[1..]);
    }
  }
}
