/**
 * The parsed configuration tree: a YAML stage is a mapping whose values are
 * strings, nested mappings or sequences of strings.
 */
module ConfigTree {
  import opened Wrappers
  import opened Strings
  import opened Dict

  datatype Node =
    | Scalar(s: string)
    | Branch(entries: Dict<Node>)
    | List(items: seq<string>)

  /** The node reached from the mapping `d` by following `path`; `[]` names `d` itself. */
  function Lookup(d: Dict<Node>, path: seq<string>): Option<Node>
    decreases |path|
  {
    if path == [] then Some(Branch(d))
    else match Get(d, path[0])
      case None => None
      case Some(n) =>
        if |path| == 1 then Some(n)
        else if n.Branch? then Lookup(n.entries, path[1..])
        else None
  }

  /** The scalar entries of a mapping. */
  function Scalars(e: Dict<Node>): (r: Dict<string>)
    ensures |r| <= |e|
    decreases |e|
  {
    if e == [] then []
    else match e[|e| - 1].1
      case Scalar(v) => Scalars(e[..|e| - 1]) + [(e[|e| - 1].0, v)]
      case _ => Scalars(e[..|e| - 1])
  }

  /** What a string or a list holds at its indices: its characters or its items. */
  function Elements(n: Node): seq<string> {
    match n
    case Scalar(s) => seq(|s|, i requires 0 <= i < |s| => [s[i]])
    case List(items) => items
    case Branch(_) => []
  }

  /**
   * A node's own enumerable properties, as `for...in` visits them: a
   * mapping's entries, or each element of a string or list under its index.
   */
  function Members(n: Node): Dict<Node> {
    if n.Branch? then n.entries
    else seq(|Elements(n)|, i requires 0 <= i < |Elements(n)| => (Decimal(i), Scalar(Elements(n)[i])))
  }

  /** `{...n}` or `Object.assign(env, n)` of a string or list: its elements under their indices. */
  function Indexed(n: Node): Dict<string> {
    seq(|Elements(n)|, i requires 0 <= i < |Elements(n)| => (Decimal(i), Elements(n)[i]))
  }

  /** The element a key names, when it is the decimal of an index in range. */
  function ElementAt(n: Node, k: string): Option<string> {
    match ArrayIndex(k)
    case Some(i) => if i < |Elements(n)| then Some(Elements(n)[i]) else None
    case None => None
  }

  /** The spread of a string or list repeats no key and holds each element under its index only. */
  lemma IndexedGet(n: Node, k: string)
    ensures Distinct(Indexed(n))
    ensures Get(Indexed(n), k) == ElementAt(n, k)
  {
    var d := Indexed(n);
    forall a, b | 0 <= a < b < |d| ensures d[a].0 != d[b].0 {
      if d[a].0 == d[b].0 {
        DecimalInjective(a, b);
      }
    }
    match ArrayIndex(k)
    case Some(i) =>
      ArrayIndexDecimal(k);
      if i < |d| {
        GetAt(d, i);
      } else if Get(d, k).Some? {
        var j := GetFound(d, k);
        DecimalRoundTrip(j);
      }
    case None =>
      if Get(d, k).Some? {
        var j := GetFound(d, k);
        DecimalRoundTrip(j);
      }
  }

  /** A string or list has exactly the properties of its spread, each element as a scalar. */
  lemma MembersGet(n: Node, k: string)
    requires !n.Branch?
    ensures Distinct(Members(n))
    ensures Get(Members(n), k) == if ElementAt(n, k).Some? then Some(Scalar(ElementAt(n, k).value)) else None
  {
    var m := Members(n);
    var d := Indexed(n);
    IndexedGet(n, k);
    assert forall a, b | 0 <= a < b < |m| :: m[a].0 == d[a].0 && m[b].0 == d[b].0;
    MembersMirror(m, d);
  }

  /** Two dictionaries with the same keys, one holding the other's strings as scalars. */
  lemma {:induction false} MembersMirror(m: Dict<Node>, d: Dict<string>)
    requires |m| == |d| && forall i | 0 <= i < |m| :: m[i] == (d[i].0, Scalar(d[i].1))
    ensures forall k :: Get(m, k) == if Get(d, k).Some? then Some(Scalar(Get(d, k).value)) else None
    ensures Distinct(d) ==> Distinct(m)
    decreases |m|
  {
    if |m| > 0 {
      MembersMirror(m[1..], d[1..]);
    }
  }

  predicate IsPrefix(p: seq<string>, q: seq<string>) {
    |p| <= |q| && q[..|p|] == p
  }

  /** Every node on the way to a node that exists is a mapping. */
  lemma {:induction false} LookupPrefixBranch(d: Dict<Node>, q: seq<string>, i: nat)
    requires Lookup(d, q).Some? && i < |q|
    ensures Lookup(d, q[..i]).Some? && Lookup(d, q[..i]).value.Branch?
    decreases |q|
  {
    if i > 0 {
      var n := Get(d, q[0]).value;
      assert |q| > 1 && n.Branch?;
      LookupPrefixBranch(n.entries, q[1..], i - 1);
      assert q[..i][1..] == q[1..][..i - 1];
    }
  }

  /** Below a missing key nothing exists. */
  lemma {:induction false} LookupMissingHead(d: Dict<Node>, q: seq<string>)
    requires |q| >= 1 && Get(d, q[0]).None?
    ensures Lookup(d, q).None?
  {
  }

  /** Below the mapping `c` stored at `q[0]`, lookups continue in `c`. */
  lemma {:induction false} LookupThrough(d: Dict<Node>, c: Dict<Node>, q: seq<string>)
    requires |q| >= 1 && Get(d, q[0]) == Some(Branch(c))
    ensures Lookup(d, q) == Lookup(c, q[1..])
  {
  }

  /** A lookup depends only on what the first key holds. */
  lemma {:induction false} LookupHead(d: Dict<Node>, e: Dict<Node>, q: seq<string>)
    requires |q| >= 1 && Get(d, q[0]) == Get(e, q[0])
    ensures Lookup(d, q) == Lookup(e, q)
  {
  }
}
