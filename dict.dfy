/**
 * JavaScript objects used as dictionaries with string keys. An object keeps
 * its keys in insertion order: assigning to an existing key replaces its
 * value in place, assigning to a new key appends it. `Object.assign`, the
 * object spread `{...a, ...b}` and `delete` are modelled on that basis.
 */
module Dict {
  import opened Wrappers

  type Dict<V> = seq<(string, V)>

  function Keys<V>(d: Dict<V>): (r: seq<string>)
    ensures |r| == |d|
  {
    if d == [] then [] else [d[0].0] + Keys(d[1..])
  }

  /** No key occurs twice, as in every JavaScript object. */
  predicate Distinct<V>(d: Dict<V>) {
    forall i, j | 0 <= i < j < |d| :: d[i].0 != d[j].0
  }

  /** `d[k]`: the value of the first entry with key `k`, or None (undefined). */
  function Get<V>(d: Dict<V>, k: string): (r: Option<V>)
    ensures r.None? <==> k !in Keys(d)
  {
    if d == [] then None
    else if d[0].0 == k then Some(d[0].1)
    else Get(d[1..], k)
  }

  /** In a dictionary without repeated keys, each entry is what its key looks up. */
  lemma {:induction false} GetAt<V>(d: Dict<V>, i: nat)
    requires Distinct(d) && i < |d|
    ensures Get(d, d[i].0) == Some(d[i].1)
  {
    if i > 0 {
      assert d[0].0 != d[i].0;
      assert Distinct(d[1..]) by {
        forall a, b | 0 <= a < b < |d[1..]| ensures d[1..][a].0 != d[1..][b].0 {
          assert d[1..][a] == d[a + 1] && d[1..][b] == d[b + 1];
        }
      }
      GetAt(d[1..], i - 1);
    }
  }

  /** A key that is found belongs to some entry with that value. */
  lemma {:induction false} GetFound<V>(d: Dict<V>, k: string) returns (i: nat)
    requires Get(d, k).Some?
    ensures i < |d| && d[i] == (k, Get(d, k).value)
  {
    if d[0].0 == k {
      i := 0;
    } else {
      var j := GetFound(d[1..], k);
      i := j + 1;
    }
  }

  /** A key no entry carries looks up nothing. */
  lemma {:induction false} GetAbsent<V>(d: Dict<V>, k: string)
    requires forall j | 0 <= j < |d| :: d[j].0 != k
    ensures Get(d, k).None?
  {
    if d != [] {
      assert forall j | 0 <= j < |d[1..]| :: d[1..][j] == d[j + 1];
      GetAbsent(d[1..], k);
    }
  }

  /** Assigning a key the value it already has changes nothing. */
  lemma {:induction false} PutSame<V>(d: Dict<V>, k: string)
    requires Get(d, k).Some?
    ensures Put(d, k, Get(d, k).value) == d
  {
    if d[0].0 != k {
      PutSame(d[1..], k);
      assert d == [d[0]] + d[1..];
    } else {
      assert d == [d[0]] + d[1..];
    }
  }

  /** Looking up in a dictionary with one more entry at the end. */
  lemma {:induction false} GetAppend<V>(d: Dict<V>, k: string, v: V, key: string)
    ensures Get(d + [(k, v)], key) ==
            if Get(d, key).Some? then Get(d, key)
            else if key == k then Some(v) else None
  {
    if d != [] {
      assert (d + [(k, v)])[1..] == d[1..] + [(k, v)];
      GetAppend(d[1..], k, v, key);
    }
  }

  /** A prefix one entry longer is the shorter prefix with that entry appended. */
  lemma PrefixSnoc<V>(d: Dict<V>, i: nat)
    requires 0 < i <= |d|
    ensures d[..i] == d[..i - 1] + [d[i - 1]]
  {
  }

  /** `d[k] = v`: replace in place when `k` is present, append otherwise. */
  function Put<V>(d: Dict<V>, k: string, v: V): (r: Dict<V>)
    ensures Get(r, k) == Some(v)
    ensures forall key | key != k :: Get(r, key) == Get(d, key)
  {
    if d == [] then [(k, v)]
    else if d[0].0 == k then [(k, v)] + d[1..]
    else [d[0]] + Put(d[1..], k, v)
  }

  /** A second assignment to the same key overrides the first. */
  lemma {:induction false} PutPut<V>(d: Dict<V>, k: string, a: V, b: V)
    ensures Put(Put(d, k, a), k, b) == Put(d, k, b)
  {
    if d != [] && d[0].0 != k {
      PutPut(d[1..], k, a, b);
      assert ([d[0]] + Put(d[1..], k, a))[1..] == Put(d[1..], k, a);
    }
  }

  /** A new key goes to the end; an existing key keeps its position. */
  lemma {:induction false} PutShape<V>(d: Dict<V>, k: string, v: V)
    ensures k !in Keys(d) ==> Put(d, k, v) == d + [(k, v)]
    ensures k in Keys(d) ==> Keys(Put(d, k, v)) == Keys(d)
  {
    if d != [] && d[0].0 != k {
      PutShape(d[1..], k, v);
      assert d == [d[0]] + d[1..];
    }
  }

  lemma {:induction false} DistinctByKeys<V>(d: Dict<V>, e: Dict<V>)
    requires Keys(d) == Keys(e) && Distinct(d)
    ensures Distinct(e)
  {
    forall i | 0 <= i < |d| ensures d[i].0 == e[i].0 { KeysAt(d, i); KeysAt(e, i); }
  }

  lemma {:induction false} KeysAt<V>(d: Dict<V>, i: nat)
    requires i < |d|
    ensures Keys(d)[i] == d[i].0
  {
    if i > 0 { KeysAt(d[1..], i - 1); }
  }

  lemma {:induction false} KeysAppend<V>(d: Dict<V>, e: Dict<V>)
    ensures Keys(d + e) == Keys(d) + Keys(e)
  {
    if d != [] {
      assert (d + e)[1..] == d[1..] + e;
      KeysAppend(d[1..], e);
    } else {
      assert d + e == e;
    }
  }

  /** Assigning keeps a dictionary free of repeated keys. */
  lemma {:induction false} PutDistinct<V>(d: Dict<V>, k: string, v: V)
    requires Distinct(d)
    ensures Distinct(Put(d, k, v))
  {
    PutShape(d, k, v);
    if k in Keys(d) {
      DistinctByKeys(d, Put(d, k, v));
    } else {
      var r := d + [(k, v)];
      forall i | 0 <= i < |d| ensures d[i].0 != k { KeysAt(d, i); }
      forall i, j | 0 <= i < j < |r| ensures r[i].0 != r[j].0 {
        if j < |d| { assert r[i] == d[i] && r[j] == d[j]; }
      }
    }
  }

  /** `Object.assign(d, e)`, equally `{...d, ...e}`: the entries of `e` in order. */
  function Assign<V>(d: Dict<V>, e: Dict<V>): (r: Dict<V>)
    decreases |e|
  {
    if e == [] then d
    else
      var last := e[|e| - 1];
      Put(Assign(d, e[..|e| - 1]), last.0, last.1)
  }

  /** The spread/assign rule: a key of `e` takes `e`'s value, any other key keeps `d`'s. */
  lemma {:induction false} AssignGet<V>(d: Dict<V>, e: Dict<V>, key: string)
    requires Distinct(e)
    ensures Get(Assign(d, e), key) == if Get(e, key).Some? then Get(e, key) else Get(d, key)
    decreases |e|
  {
    if e != [] {
      var init := e[..|e| - 1];
      var last := e[|e| - 1];
      assert e == init + [last];
      assert Distinct(init) by {
        forall a, b | 0 <= a < b < |init| ensures init[a].0 != init[b].0 {
          assert init[a] == e[a] && init[b] == e[b];
        }
      }
      AssignGet(d, init, key);
      GetAppend(init, last.0, last.1, key);
      if key == last.0 {
        GetAt(e, |e| - 1);
      }
    }
  }

  /** Assigning keeps the keys already present, in their original order, in front. */
  lemma {:induction false} AssignKeepsOrder<V>(d: Dict<V>, e: Dict<V>)
    ensures |d| <= |Assign(d, e)| && Keys(Assign(d, e))[..|d|] == Keys(d)
    ensures Distinct(d) ==> Distinct(Assign(d, e))
    decreases |e|
  {
    if e != [] {
      var init := e[..|e| - 1];
      var last := e[|e| - 1];
      var p := Assign(d, init);
      AssignKeepsOrder(d, init);
      PutShape(p, last.0, last.1);
      if last.0 !in Keys(p) {
        KeysAppend(p, [(last.0, last.1)]);
        assert Keys(p + [(last.0, last.1)])[..|d|] == Keys(p)[..|d|];
      }
      if Distinct(d) { PutDistinct(p, last.0, last.1); }
    }
  }

  /** `Object.assign(d, es[0], es[1], ...)`: the sources one after the other. */
  function AssignAll<V>(d: Dict<V>, es: seq<Dict<V>>): Dict<V>
    decreases |es|
  {
    if es == [] then d else Assign(AssignAll(d, es[..|es| - 1]), es[|es| - 1])
  }

  /** Source `j` is the last of `es` that has key `k`. */
  predicate LastDefines<V>(es: seq<Dict<V>>, k: string, j: int) {
    0 <= j < |es| && Get(es[j], k).Some? && forall l | j < l < |es| :: Get(es[l], k).None?
  }

  /** Later sources win: a key has the value of the last source that has it, else `d`'s. */
  lemma {:induction false} AssignAllGet<V>(d: Dict<V>, es: seq<Dict<V>>, k: string)
    requires forall j | 0 <= j < |es| :: Distinct(es[j])
    ensures (forall j | 0 <= j < |es| :: Get(es[j], k).None?) ==> Get(AssignAll(d, es), k) == Get(d, k)
    ensures forall j | LastDefines(es, k, j) :: Get(AssignAll(d, es), k) == Get(es[j], k)
    decreases |es|
  {
    if es != [] {
      var n := |es| - 1;
      var init := es[..n];
      assert forall j | 0 <= j < n :: init[j] == es[j];
      AssignAllGet(d, init, k);
      var before := AssignAll(d, init);
      assert AssignAll(d, es) == Assign(before, es[n]);
      AssignGet(before, es[n], k);
      if Get(es[n], k).Some? {
        forall j | LastDefines(es, k, j) ensures Get(AssignAll(d, es), k) == Get(es[j], k) {
          assert j == n;
        }
      } else {
        assert Get(AssignAll(d, es), k) == Get(before, k);
        forall j | LastDefines(es, k, j) ensures Get(AssignAll(d, es), k) == Get(es[j], k) {
          LastDefinesInit(es, k, j);
        }
      }
    }
  }

  /** Dropping a last source that lacks `k` keeps the last source that has it. */
  lemma LastDefinesInit<V>(es: seq<Dict<V>>, k: string, j: int)
    requires LastDefines(es, k, j) && Get(es[|es| - 1], k).None?
    ensures j < |es| - 1 && LastDefines(es[..|es| - 1], k, j) && es[..|es| - 1][j] == es[j]
  {
  }

  /** The last source that has key `k`, if any. */
  function LastDefining<V>(es: seq<Dict<V>>, k: string): (r: Option<nat>)
    ensures r.Some? ==> LastDefines(es, k, r.value)
    ensures r.None? ==> forall j | 0 <= j < |es| :: Get(es[j], k).None?
    decreases |es|
  {
    if es == [] then None
    else if Get(es[|es| - 1], k).Some? then Some(|es| - 1)
    else
      assert forall j | 0 <= j < |es| - 1 :: es[..|es| - 1][j] == es[j];
      LastDefining(es[..|es| - 1], k)
  }

  /** The dictionaries that `names` select from `files`, in order. */
  function Selected<V>(names: seq<string>, files: map<string, Dict<V>>): (r: seq<Dict<V>>)
    requires forall j | 0 <= j < |names| :: names[j] in files
    ensures |r| == |names| && forall j | 0 <= j < |names| :: r[j] == files[names[j]]
  {
    seq(|names|, j requires 0 <= j < |names| => files[names[j]])
  }

  /**
   * Copy into `a` every entry of `e` whose key `a` does not have yet; keys
   * that `a` already has keep their values (first writer wins).
   */
  function AddMissing<V>(a: Dict<V>, e: Dict<V>): (r: Dict<V>)
    decreases |e|
  {
    if e == [] then a
    else
      var last := e[|e| - 1];
      var p := AddMissing(a, e[..|e| - 1]);
      if Get(p, last.0).None? then Put(p, last.0, last.1) else p
  }

  /**
   * Adding missing entries: a key `a` has keeps its value; a key it lacks
   * takes its first value in `e`; `a` stays in front, unchanged.
   */
  lemma AddMissingSpec<V>(a: Dict<V>, e: Dict<V>)
    ensures forall key :: Get(AddMissing(a, e), key) == if Get(a, key).Some? then Get(a, key) else Get(e, key)
    ensures |a| <= |AddMissing(a, e)| && AddMissing(a, e)[..|a|] == a
    ensures Distinct(a) ==> Distinct(AddMissing(a, e))
  {
    forall key ensures Get(AddMissing(a, e), key) == if Get(a, key).Some? then Get(a, key) else Get(e, key) {
      AddMissingGet(a, e, key);
    }
    AddMissingPrefix(a, e);
    AddMissingDistinct(a, e);
  }

  lemma {:induction false} AddMissingGet<V>(a: Dict<V>, e: Dict<V>, key: string)
    ensures Get(AddMissing(a, e), key) == if Get(a, key).Some? then Get(a, key) else Get(e, key)
    decreases |e|
  {
    if e != [] {
      var init := e[..|e| - 1];
      var last := e[|e| - 1];
      AddMissingGet(a, init, key);
      AddMissingGet(a, init, last.0);
      assert e == init + [last];
      GetAppend(init, last.0, last.1, key);
    }
  }

  lemma {:induction false} AddMissingPrefix<V>(a: Dict<V>, e: Dict<V>)
    ensures |a| <= |AddMissing(a, e)| && AddMissing(a, e)[..|a|] == a
    decreases |e|
  {
    if e != [] {
      var init := e[..|e| - 1];
      var last := e[|e| - 1];
      var p := AddMissing(a, init);
      AddMissingPrefix(a, init);
      if Get(p, last.0).None? {
        PutShape(p, last.0, last.1);
        assert AddMissing(a, e) == p + [(last.0, last.1)];
        assert (p + [(last.0, last.1)])[..|a|] == p[..|a|];
      }
    }
  }

  lemma {:induction false} AddMissingDistinct<V>(a: Dict<V>, e: Dict<V>)
    ensures Distinct(a) ==> Distinct(AddMissing(a, e))
    decreases |e|
  {
    if e != [] && Distinct(a) {
      var init := e[..|e| - 1];
      var last := e[|e| - 1];
      var p := AddMissing(a, init);
      AddMissingDistinct(a, init);
      if Get(p, last.0).None? {
        PutDistinct(p, last.0, last.1);
      }
    }
  }

  /** `delete d[k]`. */
  function Remove<V>(d: Dict<V>, k: string): (r: Dict<V>)
    ensures Get(r, k).None?
    ensures forall key | key != k :: Get(r, key) == Get(d, key)
  {
    if d == [] then []
    else if d[0].0 == k then Remove(d[1..], k)
    else [d[0]] + Remove(d[1..], k)
  }
}
