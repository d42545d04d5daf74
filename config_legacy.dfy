/**
 * The older configuration loader of src/config.ts. It merges the
 * environment into the stage tree with a generic deep merge (no prefix, no
 * conflict errors), flattens trees to `a__b=v` lines and reads secrets from
 * keys ending in `__FROM`.
 */
module LegacyConfig {
  import opened Wrappers
  import opened Strings
  import opened Dict
  import opened ConfigTree

  /** A JavaScript value as this file sees it: undefined or a tree node. */
  datatype Js = Undefined | Defined(node: Node)

  /** What this file throws: indexing `undefined`, or a missing file. */
  datatype JsError = TypeError | FileNotFound(name: string)

  /** The text of the error `findFile` throws. */
  function FileNotFoundMessage(name: string): string {
    "Couldn't find configuration file \"" + name + "\""
  }

  /** JavaScript truthiness: the empty string is the only falsy node. */
  predicate Truthy(v: Js) {
    match v
    case Undefined => false
    case Defined(Scalar(s)) => s != ""
    case Defined(_) => true
  }

  /** `isObject`: truthy, of type object and not an array, so only a mapping. */
  predicate IsObject(v: Js) {
    Truthy(v) && v.Defined? && v.node.Branch?
  }

  /**
   * `obj[k]`: a mapping's entry, or a string's character or a list's item
   * at a decimal index; any other key of a string or list reads undefined.
   */
  function Index(v: Js, k: string): Result<Js, JsError> {
    match v
    case Undefined => Err(TypeError)
    case Defined(n) => Ok(At(Members(n), k))
  }

  /** `d[k]` as a JavaScript value. */
  function At(d: Dict<Node>, k: string): Js {
    if Get(d, k).Some? then Defined(Get(d, k).value) else Undefined
  }

  // ---------------------------------------------------------------------------
  // delimitedStringToObject

  /** `segs.reduceRight((acc, s) => ({[s]: acc}), val)`. */
  function Wrap(segs: seq<string>, val: Node): Node
    decreases |segs|
  {
    if segs == [] then val
    else Wrap(segs[..|segs| - 1], Branch([(segs[|segs| - 1], val)]))
  }

  /** Nesting from the right is nesting under the first segment. */
  lemma {:induction false} WrapHead(segs: seq<string>, val: Node)
    requires |segs| >= 1
    ensures Wrap(segs, val) == Branch([(segs[0], Wrap(segs[1..], val))])
    decreases |segs|
  {
    var n := |segs| - 1;
    if n > 0 {
      WrapHead(segs[..n], Branch([(segs[n], val)]));
      assert segs[..n][1..] == segs[1..][..n - 1];
      assert segs[1..][n - 1] == segs[n];
    }
  }

  /**
   * `delimitedStringToObject(str, val)`: a chain of single-key mappings, one
   * per segment of `str`, ending in `val`.
   */
  function DelimitedStringToObject(str: string, val: Node): Node {
    Wrap(Split(str), val)
  }

  lemma {:induction false} WrapLookup(segs: seq<string>, val: Node, q: seq<string>)
    requires |segs| >= 1
    ensures Wrap(segs, val).Branch?
    ensures Lookup(Wrap(segs, val).entries, segs) == Some(val)
    ensures Lookup(Wrap(segs, val).entries, q).Some? ==> IsPrefix(q, segs) || IsPrefix(segs, q)
    decreases |segs|
  {
    WrapHead(segs, val);
    var e := Wrap(segs, val).entries;
    if |segs| > 1 {
      WrapHead(segs[1..], val);
      if |q| > 1 && q[0] == segs[0] {
        WrapLookup(segs[1..], val, q[1..]);
        assert q == [q[0]] + q[1..];
        assert segs == [segs[0]] + segs[1..];
      } else {
        WrapLookup(segs[1..], val, []);
      }
    }
  }

  /** The chain leads to `val` along the split key, and nowhere off that path. */
  lemma DelimitedStringToObjectSpec(str: string, val: Node, q: seq<string>)
    ensures DelimitedStringToObject(str, val).Branch?
    ensures Lookup(DelimitedStringToObject(str, val).entries, Split(str)) == Some(val)
    ensures Lookup(DelimitedStringToObject(str, val).entries, q).Some? ==> IsPrefix(q, Split(str)) || IsPrefix(Split(str), q)
  {
    WrapLookup(Split(str), val, q);
  }

  // ---------------------------------------------------------------------------
  // mergeDeep

  /**
   * `mergeDeep(target, source)` for one source. Unless both are mappings the
   * target is returned as it is.
   */
  function Merge(target: Node, source: Node): Node
    decreases source, 1
  {
    if IsObject(Defined(target)) && IsObject(Defined(source))
    then Branch(MergeEntries(target.entries, source, |source.entries|))
    else target
  }

  /** The first `i` keys of the source merged into `t`, one after the other. */
  function MergeEntries(t: Dict<Node>, source: Node, i: nat): Dict<Node>
    requires source.Branch? && i <= |source.entries|
    decreases source, 0, i
  {
    if i == 0 then t
    else
      var acc := MergeEntries(t, source, i - 1);
      var entry := source.entries[i - 1];
      if IsObject(Defined(entry.1)) then
        var base := if Truthy(At(acc, entry.0)) then Get(acc, entry.0).value else Branch([]);
        Put(acc, entry.0, Merge(base, entry.1))
      else Put(acc, entry.0, entry.1)
  }

  /** `mergeDeep`, recursing into the target's sub-mappings as it walks the source. */
  method MergeDeep(target: Node, source: Node) returns (r: Node)
    ensures r == Merge(target, source)
    decreases source, 1
  {
    if !(IsObject(Defined(target)) && IsObject(Defined(source))) {
      return target;
    }
    var t := target.entries;
    var i := 0;
    while i < |source.entries|
      invariant 0 <= i <= |source.entries|
      invariant t == MergeEntries(target.entries, source, i)
    {
      var (key, value) := source.entries[i];
      MergeEntriesStep(target.entries, source, i);
      t := MergeKey(t, key, value);
      i := i + 1;
    }
    r := Branch(t);
  }

  /** One pass of the `mergeDeep` loop: key `key` of the source, with value `value`, merged into `t`. */
  method MergeKey(t: Dict<Node>, key: string, value: Node) returns (r: Dict<Node>)
    ensures r == if IsObject(Defined(value)) then Put(t, key, Merge(MergeBase(t, key), value)) else Put(t, key, value)
    decreases value, 2
  {
    if IsObject(Defined(value)) {
      var within := t;
      if !Truthy(At(t, key)) {
        within := Put(t, key, Branch([]));
      }
      var child := MergeDeep(Get(within, key).value, value);
      r := Put(within, key, child);
      MergeStepObject(t, key, value, within, child);
    } else {
      r := Put(t, key, value);
    }
  }

  /** One more source key: how `MergeEntries` grows by one step. */
  lemma MergeEntriesStep(t: Dict<Node>, source: Node, i: nat)
    requires source.Branch? && i < |source.entries|
    ensures var acc := MergeEntries(t, source, i);
            var (key, value) := source.entries[i];
            MergeEntries(t, source, i + 1) ==
              if IsObject(Defined(value)) then Put(acc, key, Merge(MergeBase(acc, key), value))
              else Put(acc, key, value)
  {
  }

  /** The mapping a source mapping is merged into: the target's value, or a fresh `{}` when that is falsy. */
  function MergeBase(acc: Dict<Node>, key: string): Node {
    if Truthy(At(acc, key)) then Get(acc, key).value else Branch([])
  }

  /** Creating `{}` at a falsy key, then writing the merged child there, is one assignment. */
  lemma MergeStepObject(acc: Dict<Node>, key: string, value: Node, within: Dict<Node>, child: Node)
    requires within == if Truthy(At(acc, key)) then acc else Put(acc, key, Branch([]))
    requires child == Merge(Get(within, key).value, value)
    ensures Put(within, key, child) == Put(acc, key, Merge(MergeBase(acc, key), value))
  {
    if !Truthy(At(acc, key)) {
      PutPut(acc, key, Branch([]), child);
    }
  }

  /** What the merge leaves at key `k` of `t` when the source brings `incoming` there. */
  ghost function MergedAt(t: Dict<Node>, incoming: Option<Node>, k: string): Option<Node> {
    match incoming
    case None => Get(t, k)
    case Some(v) =>
      if IsObject(Defined(v))
      then Some(Merge(if Truthy(At(t, k)) then Get(t, k).value else Branch([]), v))
      else Some(v)
  }

  /** Each key of the merge depends only on the target's and the source's value there. */
  lemma {:induction false} MergeEntriesGet(t: Dict<Node>, source: Node, i: nat, k: string)
    requires source.Branch? && i <= |source.entries| && Distinct(source.entries)
    ensures Get(MergeEntries(t, source, i), k) == MergedAt(t, Get(source.entries[..i], k), k)
    decreases i
  {
    if i > 0 {
      MergeEntriesGet(t, source, i - 1, k);
      MergeStepGet(t, source, i, k);
    }
  }

  /** One step of the merge keeps each key's value as `MergedAt` describes it. */
  lemma MergeStepGet(t: Dict<Node>, source: Node, i: nat, k: string)
    requires source.Branch? && 0 < i <= |source.entries| && Distinct(source.entries)
    ensures Get(MergeEntries(t, source, i - 1), k) == MergedAt(t, Get(source.entries[..i - 1], k), k) ==>
            Get(MergeEntries(t, source, i), k) == MergedAt(t, Get(source.entries[..i], k), k)
  {
    var s := source.entries;
    var acc := MergeEntries(t, source, i - 1);
    var entry := s[i - 1];
    if Get(acc, k) == MergedAt(t, Get(s[..i - 1], k), k) {
      MergeEntriesStep(t, source, i - 1);
      PrefixSnoc(s, i);
      GetAppend(s[..i - 1], entry.0, entry.1, k);
      if entry.0 == k {
        GetAbsent(s[..i - 1], k);
        assert Get(acc, k) == Get(t, k);
        assert At(acc, k) == At(t, k);
        assert MergeBase(acc, k) == (if Truthy(At(t, k)) then Get(t, k).value else Branch([]));
      } else {
        assert Get(MergeEntries(t, source, i), k) == Get(acc, k);
      }
    }
  }

  /**
   * `mergeDeep` key by key: a key the source lacks keeps the target's value;
   * a source value that is not a mapping replaces the target's; a mapping is
   * merged into the target's mapping, into a fresh `{}` when the target's
   * value is falsy or absent, and merging into a truthy string or array is
   * a no-op, so that value survives.
   */
  lemma MergeGet(target: Dict<Node>, source: Dict<Node>, k: string)
    requires Distinct(source)
    ensures var r := Merge(Branch(target), Branch(source));
            r.Branch? &&
            (Get(source, k).None? ==> Get(r.entries, k) == Get(target, k)) &&
            (Get(source, k).Some? && !IsObject(Defined(Get(source, k).value)) ==> Get(r.entries, k) == Get(source, k)) &&
            (Get(source, k).Some? && IsObject(Defined(Get(source, k).value)) ==>
              if !Truthy(At(target, k)) then Get(r.entries, k) == Some(Merge(Branch([]), Get(source, k).value))
              else if Get(target, k).value.Branch? then Get(r.entries, k) == Some(Merge(Get(target, k).value, Get(source, k).value))
              else Get(r.entries, k) == Get(target, k))
  {
    assert Branch(source).entries[..|source|] == source;
    assert Merge(Branch(target), Branch(source)) == Branch(MergeEntries(target, Branch(source), |source|));
    MergeEntriesGet(target, Branch(source), |source|, k);
  }

  /** Every mapping in the tree is free of repeated keys, as parsed JavaScript objects are. */
  predicate Wf(n: Node)
    decreases n
  {
    n.Branch? ==> Distinct(n.entries) && forall i | 0 <= i < |n.entries| :: Wf(n.entries[i].1)
  }

  /** Merging a well-formed mapping into `{}` copies it. */
  lemma {:induction false} MergeIntoEmpty(s: Node)
    requires Wf(s) && s.Branch?
    ensures Merge(Branch([]), s) == s
    decreases s, 1
  {
    MergeEntriesCopy(s, |s.entries|);
    assert s.entries[..|s.entries|] == s.entries;
  }

  lemma {:induction false} MergeEntriesCopy(s: Node, i: nat)
    requires Wf(s) && s.Branch? && i <= |s.entries|
    ensures MergeEntries([], s, i) == s.entries[..i]
    decreases s, 0, i
  {
    if i > 0 {
      MergeEntriesCopy(s, i - 1);
      var acc := s.entries[..i - 1];
      var entry := s.entries[i - 1];
      forall j | 0 <= j < |acc| ensures acc[j].0 != entry.0 {
        assert acc[j] == s.entries[j];
      }
      GetAbsent(acc, entry.0);
      PutShape(acc, entry.0, entry.1);
      if IsObject(Defined(entry.1)) {
        MergeIntoEmpty(entry.1);
      }
      assert s.entries[..i] == acc + [entry];
    }
  }

  /** A chain of single-key mappings is well formed when its end is. */
  lemma {:induction false} WrapWf(segs: seq<string>, val: Node)
    requires Wf(val)
    ensures Wf(Wrap(segs, val))
    decreases |segs|
  {
    if segs != [] {
      WrapWf(segs[..|segs| - 1], Branch([(segs[|segs| - 1], val)]));
    }
  }

  // ---------------------------------------------------------------------------
  // env2obj

  /** `env2obj`: each `key=value` made into a chain and deep-merged, in order, into `{}`. */
  function Env2Obj(env: Dict<string>): (r: Node)
    ensures r.Branch?
    decreases |env|
  {
    if env == [] then Branch([])
    else
      var last := env[|env| - 1];
      Merge(Env2Obj(env[..|env| - 1]), DelimitedStringToObject(last.0, Scalar(last.1)))
  }

  /** A single variable becomes its chain. */
  lemma Env2ObjSingle(k: string, v: string)
    ensures Env2Obj([(k, v)]) == DelimitedStringToObject(k, Scalar(v))
  {
    var c := DelimitedStringToObject(k, Scalar(v));
    assert [(k, v)][..0] == [];
    DelimitedStringToObjectSpec(k, Scalar(v), []);
    WrapWf(Split(k), Scalar(v));
    MergeIntoEmpty(c);
  }

  /** Every top-level key of `env2obj` is the first segment of some variable. */
  lemma {:induction false} Env2ObjRoots(env: Dict<string>, root: string)
    requires Get(Env2Obj(env).entries, root).Some?
    ensures exists j | 0 <= j < |env| :: Split(env[j].0)[0] == root
    decreases |env|
  {
    var n := |env| - 1;
    var init := env[..n];
    var c := DelimitedStringToObject(env[n].0, Scalar(env[n].1));
    WrapHead(Split(env[n].0), Scalar(env[n].1));
    MergeGet(Env2Obj(init).entries, c.entries, root);
    if Get(c.entries, root).None? {
      Env2ObjRoots(init, root);
      var j :| 0 <= j < n && Split(init[j].0)[0] == root;
      assert init[j] == env[j];
    }
  }

  // ---------------------------------------------------------------------------
  // deepValue and obj2env

  /** `deepValue(obj, path)`: `obj` indexed by each segment of the split path in turn. */
  function DeepValueSpec(obj: Js, segs: seq<string>): Result<Js, JsError>
    decreases |segs|
  {
    if segs == [] then Ok(obj)
    else match Index(obj, segs[0])
      case Err(e) => Err(e)
      case Ok(o) => DeepValueSpec(o, segs[1..])
  }

  /** `deepValue`: the loop that reassigns `obj` once per segment. */
  method DeepValue(obj: Js, path: string) returns (r: Result<Js, JsError>)
    ensures r == DeepValueSpec(obj, Split(path))
  {
    var segs := Split(path);
    var o := obj;
    var i := 0;
    while i < |segs|
      invariant 0 <= i <= |segs|
      invariant DeepValueSpec(obj, segs) == DeepValueSpec(o, segs[i..])
    {
      assert segs[i..][1..] == segs[i + 1..];
      var next := Index(o, segs[i]);
      if next.Err? {
        return Err(next.error);
      }
      o := next.value;
      i := i + 1;
    }
    r := Ok(o);
  }

  /** A key without the delimiter is read directly. */
  lemma DeepValueSingle(e: Dict<Node>, key: string)
    requires !HasDelim(key)
    ensures DeepValueSpec(Defined(Branch(e)), Split(key)) == Ok(At(e, key))
  {
    SplitWithoutDelim(key);
  }

  /** How a value is written after `key + "="`. */
  function ToStr(v: Js): string {
    match v
    case Undefined => "undefined"
    case Defined(Scalar(s)) => s
    case Defined(List(items)) => JoinComma(items)
    case Defined(Branch(_)) => "[object Object]"
  }

  /** The lines of a sub-mapping under `key`: `key + "__" + subkey`. */
  function Prefixed(key: string, subs: seq<string>): (r: seq<string>)
    ensures |r| == |subs| && forall i | 0 <= i < |subs| :: r[i] == key + Delim + subs[i]
  {
    seq(|subs|, i requires 0 <= i < |subs| => key + Delim + subs[i])
  }

  /**
   * `obj2env(obj)`: one line per key that is not a mapping, sub-mappings
   * flattened under their key. The keys are those `for...in` visits, so a
   * string or a list gives one line per index.
   */
  function Lines(obj: Node): Result<seq<string>, JsError>
    decreases obj, 1
  {
    LinesOf(obj, |Members(obj)|)
  }

  /** The lines of the first `i` keys of `obj`. */
  function LinesOf(obj: Node, i: nat): Result<seq<string>, JsError>
    requires i <= |Members(obj)|
    decreases obj, 0, i
  {
    if i == 0 then Ok([])
    else match LinesOf(obj, i - 1)
      case Err(e) => Err(e)
      case Ok(acc) =>
        var entry := Members(obj)[i - 1];
        if IsObject(Defined(entry.1)) then
          match Lines(entry.1)
          case Err(e) => Err(e)
          case Ok(sub) => Ok(acc + Prefixed(entry.0, sub))
        else
          match DeepValueSpec(Defined(obj), Split(entry.0))
          case Err(e) => Err(e)
          case Ok(v) => Ok(acc + [entry.0 + "=" + ToStr(v)])
  }

  /** `obj2env`: the `for...in` loop accumulating lines, recursing into sub-mappings. */
  method Obj2Env(obj: Node) returns (r: Result<seq<string>, JsError>)
    ensures r == Lines(obj)
    decreases obj, 1
  {
    var members := Members(obj);
    var keys: seq<string> := [];
    var i := 0;
    while i < |members|
      invariant 0 <= i <= |members|
      invariant LinesOf(obj, i) == Ok(keys)
    {
      var (key, value) := members[i];
      if IsObject(Defined(value)) {
        var subkeys := Obj2Env(value);
        if subkeys.Err? {
          LinesOfErrPersists(obj, i + 1, |members|);
          return Err(subkeys.error);
        }
        keys := keys + Prefixed(key, subkeys.value);
      } else {
        var v := DeepValue(Defined(obj), key);
        if v.Err? {
          LinesOfErrPersists(obj, i + 1, |members|);
          return Err(v.error);
        }
        keys := keys + [key + "=" + ToStr(v.value)];
      }
      i := i + 1;
    }
    r := Ok(keys);
  }

  /** Once a key has thrown, so has every longer prefix of the loop. */
  lemma {:induction false} LinesOfErrPersists(obj: Node, i: nat, j: nat)
    requires i <= j <= |Members(obj)| && LinesOf(obj, i).Err?
    ensures LinesOf(obj, j) == LinesOf(obj, i)
    decreases j
  {
    if j > i {
      LinesOfErrPersists(obj, i, j - 1);
    }
  }

  /** `obj2env` of a string or a list: the line `i=element` for each index `i`, in order. */
  lemma IndexedLines(obj: Node)
    requires !obj.Branch?
    ensures Lines(obj).Ok? && |Lines(obj).value| == |Elements(obj)|
    ensures forall i | 0 <= i < |Elements(obj)| :: Lines(obj).value[i] == Decimal(i) + "=" + Elements(obj)[i]
  {
    IndexedLinesOf(obj, |Elements(obj)|);
  }

  lemma {:induction false} IndexedLinesOf(obj: Node, n: nat)
    requires !obj.Branch? && n <= |Elements(obj)|
    ensures LinesOf(obj, n).Ok? && |LinesOf(obj, n).value| == n
    ensures forall i | 0 <= i < n :: LinesOf(obj, n).value[i] == Decimal(i) + "=" + Elements(obj)[i]
    decreases n
  {
    if n > 0 {
      IndexedLinesOf(obj, n - 1);
      IndexedValue(obj, n - 1);
      LeafLine(obj, n, Defined(Scalar(Elements(obj)[n - 1])));
      var acc := LinesOf(obj, n - 1).value;
      var ls := acc + [Decimal(n - 1) + "=" + Elements(obj)[n - 1]];
      assert LinesOf(obj, n).value == ls;
      assert forall i | 0 <= i < n - 1 :: ls[i] == acc[i];
    }
  }

  /** One step of the loop over a key whose value is not a mapping. */
  lemma LeafLine(obj: Node, i: nat, w: Js)
    requires 0 < i <= |Members(obj)| && LinesOf(obj, i - 1).Ok?
    requires !IsObject(Defined(Members(obj)[i - 1].1))
    requires DeepValueSpec(Defined(obj), Split(Members(obj)[i - 1].0)) == Ok(w)
    ensures LinesOf(obj, i) == Ok(LinesOf(obj, i - 1).value + [Members(obj)[i - 1].0 + "=" + ToStr(w)])
  {
  }

  /** One step of the loop over a key whose value is a mapping that flattens. */
  lemma MapLine(obj: Node, i: nat)
    requires 0 < i <= |Members(obj)| && LinesOf(obj, i - 1).Ok?
    requires IsObject(Defined(Members(obj)[i - 1].1)) && Lines(Members(obj)[i - 1].1).Ok?
    ensures LinesOf(obj, i) == Ok(LinesOf(obj, i - 1).value + Prefixed(Members(obj)[i - 1].0, Lines(Members(obj)[i - 1].1).value))
  {
  }

  /** The key at index `i` of a string or list reads back its element. */
  lemma IndexedValue(obj: Node, i: nat)
    requires !obj.Branch? && i < |Elements(obj)|
    ensures Members(obj)[i] == (Decimal(i), Scalar(Elements(obj)[i]))
    ensures DeepValueSpec(Defined(obj), Split(Decimal(i))) == Ok(Defined(Scalar(Elements(obj)[i])))
  {
    var k := Decimal(i);
    DecimalPlain(i);
    SplitWithoutDelim(k);
    MembersGet(obj, k);
    DecimalRoundTrip(i);
    assert [k][1..] == [];
  }

  /** The string `"ab"` flattens to one line per character: `0=a` and `1=b`. */
  lemma Obj2EnvString()
    ensures Lines(Scalar("ab")) == Ok(["0=a", "1=b"])
  {
    var obj := Scalar("ab");
    IndexedLines(obj);
    assert Elements(obj)[0] == "a" && Elements(obj)[1] == "b";
    assert Decimal(0) == "0" && Decimal(1) == "1";
    assert "0" + "=" + "a" == "0=a" && "1" + "=" + "b" == "1=b";
    assert |Lines(obj).value| == 2;
    assert Lines(obj).value[0] == "0=a" && Lines(obj).value[1] == "1=b";
    assert Lines(obj).value == ["0=a", "1=b"];
  }

  /**
   * A leaf key containing the delimiter is looked up again along its split
   * path: `{"a__b": "x"}` throws, because `obj.a` is undefined.
   */
  lemma Obj2EnvDelimitedKeyThrows()
    ensures Lines(Branch([("a__b", Scalar("x"))])) == Err(TypeError)
  {
    var obj := Branch([("a__b", Scalar("x"))]);
    SplitOneDelim();
    assert Index(Defined(obj), "a") == Ok(Undefined);
    assert DeepValueSpec(Defined(obj), ["a", "b"]) == Err(TypeError);
  }

  /**
   * When the first segment of such a key names a string, the lookup reads a
   * property of that string instead: `{"a": "y", "a__b": "x"}` gives
   * `a__b=undefined`, and the value `x` is lost.
   */
  lemma Obj2EnvDelimitedKeyReads()
    ensures Lines(Branch([("a", Scalar("y")), ("a__b", Scalar("x"))])) == Ok(["a=y", "a__b=undefined"])
  {
    var obj := Branch([("a", Scalar("y")), ("a__b", Scalar("x"))]);
    SplitOneDelim();
    assert DeepValueSpec(Defined(obj), ["a"]) == Ok(Defined(Scalar("y")));
    assert DeepValueSpec(Defined(obj), ["a", "b"]) == Ok(Undefined);
    assert !IsObject(Defined(obj.entries[0].1)) && !IsObject(Defined(obj.entries[1].1));
    assert LinesOf(obj, 0) == Ok([]);
    assert "a" + "=" + ToStr(Defined(Scalar("y"))) == "a=y";
    assert LinesOf(obj, 1) == Ok([] + ["a=y"]);
    assert [] + ["a=y"] == ["a=y"];
    assert "a__b" + "=" + ToStr(Undefined) == "a__b=undefined";
    assert LinesOf(obj, 2) == Ok(["a=y"] + ["a__b=undefined"]);
    assert ["a=y"] + ["a__b=undefined"] == ["a=y", "a__b=undefined"];
  }

  /** The keys of the two examples, split at the delimiter. */
  lemma SplitOneDelim()
    ensures Split("a") == ["a"] && Split("a__b") == ["a", "b"]
  {
    assert "a__b"[1..] == "__b" && "__b"[2..] == "b";
    assert Split("b") == ["b"] && Split("__b") == ["", "b"];
    assert Split("a__b") == [['a'] + ""] + ["b"];
    assert ['a'] + "" == "a";
  }

  // ---------------------------------------------------------------------------
  // What obj2env promises for trees whose keys are plain segments

  /**
   * No key anywhere in the tree contains the delimiter or `=`, or ends with
   * an underscore, and no mapping repeats a key.
   */
  predicate Plain(n: Node)
    decreases n
  {
    n.Branch? ==> Distinct(n.entries) &&
                  forall i | 0 <= i < |n.entries| :: Segment(n.entries[i].0) && '=' !in n.entries[i].0 && Plain(n.entries[i].1)
  }

  /** `leaf` is a value that is not a mapping, found at `p` in `obj`. */
  ghost predicate LeafAt(obj: Node, p: seq<string>, leaf: Node) {
    obj.Branch? && |p| >= 1 && Lookup(obj.entries, p) == Some(leaf) && !leaf.Branch?
  }

  /** The line `obj2env` writes for a leaf. */
  function Line(p: seq<string>, leaf: Node): string
    requires |p| >= 1
  {
    Join(p) + "=" + ToStr(Defined(leaf))
  }

  /** The leaves below the `j`th key are the leaves of its mapping, one segment deeper. */
  lemma ChildLeaf(obj: Node, j: nat, q: seq<string>, leaf: Node)
    requires Plain(obj) && obj.Branch? && j < |obj.entries| && obj.entries[j].1.Branch? && |q| >= 1
    ensures LeafAt(obj, [obj.entries[j].0] + q, leaf) <==> LeafAt(obj.entries[j].1, q, leaf)
    ensures Line([obj.entries[j].0] + q, leaf) == obj.entries[j].0 + Delim + Line(q, leaf)
  {
    var p := [obj.entries[j].0] + q;
    assert LeafAt(obj, p, leaf) <==> LeafAt(obj.entries[j].1, q, leaf) by {
      GetAt(obj.entries, j);
      assert p[0] == obj.entries[j].0 && p[1..] == q;
    }
    LineCons(obj.entries[j].0, q, leaf);
  }

  /** The line of a leaf one segment deeper carries that segment and the delimiter in front. */
  lemma LineCons(key: string, q: seq<string>, leaf: Node)
    requires |q| >= 1
    ensures Line([key] + q, leaf) == key + Delim + Line(q, leaf)
  {
    var p := [key] + q;
    assert p[0] == key && p[1..] == q;
    assert Join(p) == key + Delim + Join(q);
    var tail := "=" + ToStr(Defined(leaf));
    calc {
      Line(p, leaf);
      (key + Delim + Join(q)) + tail;
      { SeqAssoc(key + Delim, Join(q), tail); }
      (key + Delim) + (Join(q) + tail);
    }
  }

  /** Concatenation regrouped; stated once so that the calculation above stays cheap. */
  lemma SeqAssoc(a: string, b: string, c: string)
    ensures (a + b) + c == a + (b + c)
  {
  }

  /**
   * `obj2env` of a plain tree cannot throw, and its lines are exactly the
   * lines of its leaves: every line is `path=value` for some leaf, every
   * leaf has its line, and no line is written twice.
   */
  lemma {:induction false} PlainLines(obj: Node)
    requires Plain(obj) && obj.Branch?
    ensures Lines(obj).Ok?
    ensures forall l | l in Lines(obj).value :: exists p, leaf | LeafAt(obj, p, leaf) :: l == Line(p, leaf)
    ensures forall p, leaf | LeafAt(obj, p, leaf) :: Line(p, leaf) in Lines(obj).value
    ensures NoDuplicates(Lines(obj).value)
    decreases obj, 1
  {
    var n := |obj.entries|;
    PlainLinesOf(obj, n);
    LinesUnique(obj);
    assert obj.entries[..n] == obj.entries;
  }

  /** The lines of the `j`th key's mapping, prefixed with that key, are the lines of the leaves under it. */
  lemma BranchLines(obj: Node, j: nat, sub: seq<string>)
    requires Plain(obj) && obj.Branch? && j < |obj.entries| && obj.entries[j].1.Branch?
    requires var v := obj.entries[j].1;
             (forall l | l in sub :: exists q, leaf | LeafAt(v, q, leaf) :: l == Line(q, leaf)) &&
             (forall q, leaf | LeafAt(v, q, leaf) :: Line(q, leaf) in sub)
    ensures var added := Prefixed(obj.entries[j].0, sub);
            (forall l | l in added :: exists p, leaf | LeafAt(obj, p, leaf) :: l == Line(p, leaf)) &&
            (forall p, leaf | LeafAt(obj, p, leaf) && p[0] == obj.entries[j].0 :: Line(p, leaf) in added)
  {
    var (key, v) := obj.entries[j];
    var added := Prefixed(key, sub);
    GetAt(obj.entries, j);
    forall l | l in added ensures exists p, leaf | LeafAt(obj, p, leaf) :: l == Line(p, leaf) {
      var m :| 0 <= m < |sub| && l == key + Delim + sub[m];
      assert sub[m] in sub;
      var q, leaf :| LeafAt(v, q, leaf) && sub[m] == Line(q, leaf);
      ChildLeaf(obj, j, q, leaf);
    }
    forall p, leaf | LeafAt(obj, p, leaf) && p[0] == key ensures Line(p, leaf) in added {
      assert p == [key] + p[1..];
      ChildLeaf(obj, j, p[1..], leaf);
      var m :| 0 <= m < |sub| && sub[m] == Line(p[1..], leaf);
      assert added[m] == Line(p, leaf);
    }
  }

  lemma {:induction false} PlainLinesOf(obj: Node, i: nat)
    requires Plain(obj) && obj.Branch? && i <= |obj.entries|
    ensures LinesOf(obj, i).Ok?
    ensures forall l | l in LinesOf(obj, i).value :: exists p, leaf | LeafAt(obj, p, leaf) :: l == Line(p, leaf)
    ensures forall p, leaf | LeafAt(obj, p, leaf) && Get(obj.entries[..i], p[0]).Some? ::
              Line(p, leaf) in LinesOf(obj, i).value
    decreases obj, 0, i + 2
  {
    if i > 0 {
      PlainLinesOf(obj, i - 1);
      PlainLinesStep(obj, i);
    }
  }

  /** Every line of `ls` is the line of a leaf of `obj`. */
  ghost predicate LinesSound(obj: Node, ls: seq<string>) {
    forall l | l in ls :: exists p, leaf | LeafAt(obj, p, leaf) :: l == Line(p, leaf)
  }

  /** Every leaf under the first `i` keys of `obj` has its line in `ls`. */
  ghost predicate LinesCover(obj: Node, ls: seq<string>, i: nat)
    requires obj.Branch? && i <= |obj.entries|
  {
    forall p, leaf | LeafAt(obj, p, leaf) && Get(obj.entries[..i], p[0]).Some? :: Line(p, leaf) in ls
  }

  /** One more key adds the lines of exactly the leaves under it. */
  lemma PlainLinesStep(obj: Node, i: nat)
    requires Plain(obj) && obj.Branch? && 0 < i <= |obj.entries|
    ensures LinesOf(obj, i - 1).Ok? && LinesSound(obj, LinesOf(obj, i - 1).value) &&
            LinesCover(obj, LinesOf(obj, i - 1).value, i - 1) ==>
            LinesOf(obj, i).Ok? && LinesSound(obj, LinesOf(obj, i).value) && LinesCover(obj, LinesOf(obj, i).value, i)
    decreases obj, 0, i + 1
  {
    if LinesOf(obj, i - 1).Ok? {
      var acc := LinesOf(obj, i - 1).value;
      var key := obj.entries[i - 1].0;
      var added := EntryLines(obj, i);
      PrefixSnoc(obj.entries, i);
      if LinesSound(obj, acc) && LinesCover(obj, acc, i - 1) {
        forall p, leaf | LeafAt(obj, p, leaf) && Get(obj.entries[..i], p[0]).Some?
          ensures Line(p, leaf) in acc + added
        {
          GetAppend(obj.entries[..i - 1], key, obj.entries[i - 1].1, p[0]);
        }
      }
    }
  }

  /** The lines the `i`th key contributes: those of the leaves under it. */
  lemma EntryLines(obj: Node, i: nat) returns (added: seq<string>)
    requires Plain(obj) && obj.Branch? && 0 < i <= |obj.entries|
    ensures LinesOf(obj, i - 1).Ok? ==> LinesOf(obj, i) == Ok(LinesOf(obj, i - 1).value + added)
    ensures LinesSound(obj, added)
    ensures forall p, leaf | LeafAt(obj, p, leaf) && p[0] == obj.entries[i - 1].0 :: Line(p, leaf) in added
    decreases obj, 0, i
  {
    var (key, v) := obj.entries[i - 1];
    GetAt(obj.entries, i - 1);
    if v.Branch? {
      PlainLines(v);
      added := Prefixed(key, Lines(v).value);
      BranchLines(obj, i - 1, Lines(v).value);
      if LinesOf(obj, i - 1).Ok? {
        MapLine(obj, i);
      }
    } else {
      DeepValueSingle(obj.entries, key);
      added := [key + "=" + ToStr(Defined(v))];
      if LinesOf(obj, i - 1).Ok? {
        LeafLine(obj, i, Defined(v));
      }
      assert Lookup(obj.entries, [key]) == Some(v);
      assert Line([key], v) == added[0];
      forall p, leaf | LeafAt(obj, p, leaf) && p[0] == key ensures Line(p, leaf) in added {
        assert |p| == 1 && p == [key];
      }
    }
  }

  /** No line occurs twice. */
  predicate NoDuplicates(s: seq<string>) {
    forall i, j | 0 <= i < j < |s| :: s[i] != s[j]
  }

  /** The first segment of a line's key: the top-level key it was written for. */
  function TopKey(l: string): string {
    Split(KeyOf(l))[0]
  }

  /** Every line of `ls` was written for one of the first `i` keys of `obj`. */
  ghost predicate TopKeysWithin(obj: Node, ls: seq<string>, i: nat)
    requires obj.Branch? && i <= |obj.entries|
  {
    forall l | l in ls :: exists m | 0 <= m < i :: TopKey(l) == obj.entries[m].0
  }

  /** A leaf's line `key=value` is written for `key`. */
  lemma TopKeyOfLeaf(key: string, value: string)
    requires Segment(key) && '=' !in key
    ensures TopKey(key + "=" + value) == key
  {
    LineFields(key, value);
    SplitWithoutDelim(key);
  }

  /** A line `key__sub` of a sub-mapping is written for `key`. */
  lemma TopKeyOfNested(key: string, sub: string)
    requires Segment(key) && '=' !in key
    ensures TopKey(key + Delim + sub) == key
  {
    assert '=' !in key + Delim;
    SplitOnPrefix(key + Delim, sub, '=');
    assert KeyOf(key + Delim + sub) == key + Delim + KeyOf(sub);
    SplitCons(key, KeyOf(sub));
  }

  /** Prefixing every line with the same key keeps distinct lines distinct. */
  lemma PrefixedUnique(key: string, subs: seq<string>)
    requires NoDuplicates(subs)
    ensures NoDuplicates(Prefixed(key, subs))
  {
    var r := Prefixed(key, subs);
    forall i, j | 0 <= i < j < |r| ensures r[i] != r[j] {
      assert r[i][|key| + 2..] == subs[i];
      assert r[j][|key| + 2..] == subs[j];
    }
  }

  /** Two runs without duplicates and without a common line concatenate without duplicates. */
  lemma NoDuplicatesConcat(a: seq<string>, b: seq<string>)
    requires NoDuplicates(a) && NoDuplicates(b) && forall l | l in a :: l !in b
    ensures NoDuplicates(a + b)
  {
    var c := a + b;
    forall i, j | 0 <= i < j < |c| ensures c[i] != c[j] {
      if j >= |a| && i < |a| {
        assert c[i] in a && c[j] == b[j - |a|];
      } else if j >= |a| {
        assert c[i] == b[i - |a|] && c[j] == b[j - |a|];
      }
    }
  }

  /** `obj2env` of a plain tree writes no line twice. */
  lemma {:induction false} LinesUnique(obj: Node)
    requires Plain(obj)
    ensures Lines(obj).Ok? ==> NoDuplicates(Lines(obj).value)
    decreases obj, 1
  {
    if obj.Branch? {
      LinesOfUnique(obj, |obj.entries|);
    } else {
      IndexedLines(obj);
      var ls := Lines(obj).value;
      forall a, b | 0 <= a < b < |ls| ensures ls[a] != ls[b] {
        DecimalPlain(a);
        DecimalPlain(b);
        LineFields(Decimal(a), Elements(obj)[a]);
        LineFields(Decimal(b), Elements(obj)[b]);
        if ls[a] == ls[b] {
          DecimalInjective(a, b);
        }
      }
    }
  }

  lemma {:induction false} LinesOfUnique(obj: Node, i: nat)
    requires Plain(obj) && obj.Branch? && i <= |obj.entries|
    ensures LinesOf(obj, i).Ok? ==> NoDuplicates(LinesOf(obj, i).value) && TopKeysWithin(obj, LinesOf(obj, i).value, i)
    decreases obj, 0, i
  {
    if i > 0 {
      LinesOfUnique(obj, i - 1);
      UniqueStep(obj, i);
    }
  }

  /** The lines one more key writes are new: they are written for that key, which no earlier key repeats. */
  lemma UniqueStep(obj: Node, i: nat)
    requires Plain(obj) && obj.Branch? && 0 < i <= |obj.entries|
    ensures LinesOf(obj, i - 1).Ok? && NoDuplicates(LinesOf(obj, i - 1).value) &&
            TopKeysWithin(obj, LinesOf(obj, i - 1).value, i - 1) && LinesOf(obj, i).Ok? ==>
            NoDuplicates(LinesOf(obj, i).value) && TopKeysWithin(obj, LinesOf(obj, i).value, i)
    decreases obj, 0, i - 1
  {
    var (key, v) := obj.entries[i - 1];
    if LinesOf(obj, i - 1).Ok? && NoDuplicates(LinesOf(obj, i - 1).value) &&
       TopKeysWithin(obj, LinesOf(obj, i - 1).value, i - 1) && LinesOf(obj, i).Ok? {
      var acc := LinesOf(obj, i - 1).value;
      var added := LinesOf(obj, i).value[|acc|..];
      assert Segment(key) && '=' !in key && Plain(v);
      if v.Branch? {
        LinesUnique(v);
        var sub := Lines(v).value;
        assert LinesOf(obj, i).value == acc + Prefixed(key, sub);
        assert added == Prefixed(key, sub);
        PrefixedUnique(key, sub);
        forall l | l in added ensures TopKey(l) == key {
          var m :| 0 <= m < |sub| && l == key + Delim + sub[m];
          TopKeyOfNested(key, sub[m]);
        }
      } else {
        var w := DeepValueSpec(Defined(obj), Split(key)).value;
        assert LinesOf(obj, i).value == acc + [key + "=" + ToStr(w)];
        assert added == [key + "=" + ToStr(w)];
        TopKeyOfLeaf(key, ToStr(w));
      }
      assert LinesOf(obj, i).value == acc + added;
      forall l | l in acc ensures l !in added {
        var m :| 0 <= m < i - 1 && TopKey(l) == obj.entries[m].0;
      }
      NoDuplicatesConcat(acc, added);
    }
  }

  // ---------------------------------------------------------------------------
  // env2record

  /** `const [key, value] = entry.split("=")`: the first field ... */
  function KeyOf(entry: string): string {
    SplitOn(entry, '=')[0]
  }

  /** ... and the second, undefined when the line has no `=`. */
  function ValueOf(entry: string): Option<string> {
    var f := SplitOn(entry, '=');
    if |f| > 1 then Some(f[1]) else None
  }

  /** `env2record`: each line made `{[key]: value}` and assigned, in order, into `{}`. */
  function Env2Record(lines: seq<string>): Dict<Option<string>>
    decreases |lines|
  {
    if lines == [] then []
    else
      var l := lines[|lines| - 1];
      Put(Env2Record(lines[..|lines| - 1]), KeyOf(l), ValueOf(l))
  }

  /** Line `j` is the last of `lines` with key `k`. */
  predicate LastKeyed(lines: seq<string>, k: string, j: int) {
    0 <= j < |lines| && KeyOf(lines[j]) == k && forall m | j < m < |lines| :: KeyOf(lines[m]) != k
  }

  /** The record holds a key iff some line has it, and then the last such line's value. */
  lemma {:induction false} Env2RecordGet(lines: seq<string>, k: string)
    ensures Get(Env2Record(lines), k).None? <==> forall j | 0 <= j < |lines| :: KeyOf(lines[j]) != k
    ensures Get(Env2Record(lines), k).Some? ==>
            exists j | LastKeyed(lines, k, j) :: Get(Env2Record(lines), k) == Some(ValueOf(lines[j]))
    decreases |lines|
  {
    if lines != [] {
      var n := |lines| - 1;
      var init := lines[..n];
      var last := lines[n];
      Env2RecordGet(init, k);
      var before := Env2Record(init);
      assert lines == init + [last];
      assert Env2Record(lines) == Put(before, KeyOf(last), ValueOf(last));
      if KeyOf(last) == k {
        assert LastKeyed(lines, k, n);
      } else {
        assert Get(Env2Record(lines), k) == Get(before, k);
        if Get(before, k).Some? {
          var j :| LastKeyed(init, k, j) && Get(before, k) == Some(ValueOf(init[j]));
          LastKeyedSnoc(init, last, k, j);
        } else {
          NoKeySnoc(init, last, k);
        }
      }
    }
  }

  /** A last line with another key keeps the last line with key `k`. */
  lemma LastKeyedSnoc(init: seq<string>, last: string, k: string, j: int)
    requires LastKeyed(init, k, j) && KeyOf(last) != k
    ensures LastKeyed(init + [last], k, j) && (init + [last])[j] == init[j]
  {
    var lines := init + [last];
    forall m | j < m < |lines| ensures KeyOf(lines[m]) != k {
      if m < |init| { assert lines[m] == init[m]; }
    }
  }

  /** A last line with another key keeps `k` absent from all lines. */
  lemma NoKeySnoc(init: seq<string>, last: string, k: string)
    requires (forall j | 0 <= j < |init| :: KeyOf(init[j]) != k) && KeyOf(last) != k
    ensures forall j | 0 <= j < |init + [last]| :: KeyOf((init + [last])[j]) != k
  {
    var lines := init + [last];
    forall j | 0 <= j < |lines| ensures KeyOf(lines[j]) != k {
      if j < |init| { assert lines[j] == init[j]; }
    }
  }

  /**
   * A line `k=rest` with no `=` in `k` is read as key `k` and the text of
   * `rest` up to its first `=`: whatever follows a second `=` is lost.
   */
  lemma LineFields(k: string, rest: string)
    requires '=' !in k
    ensures KeyOf(k + "=" + rest) == k
    ensures ValueOf(k + "=" + rest) == Some(SplitOn(rest, '=')[0])
    ensures '=' !in rest ==> ValueOf(k + "=" + rest) == Some(rest)
    ensures forall a, b | rest == a + "=" + b && '=' !in a :: ValueOf(k + "=" + rest) == Some(a)
  {
    SplitOnFirst(k, '=', rest);
    if '=' !in rest {
      SplitOnAbsent(rest, '=');
    }
    forall a, b | rest == a + "=" + b && '=' !in a ensures ValueOf(k + "=" + rest) == Some(a) {
      SplitOnFirst(a, '=', b);
    }
  }

  // ---------------------------------------------------------------------------
  // getSecretsForECS

  /** An ECS secret: the variable name and where its value comes from. */
  datatype Secret = Secret(name: string, valueFrom: Option<string>)

  /** `/__FROM$/i`: the key ends in `__` and four letters that spell FROM in any case. */
  predicate IsSecretKey(key: string) {
    |key| >= 6 && key[|key| - 6..|key| - 4] == Delim && EqualsIgnoreCase(key[|key| - 4..], "FROM")
  }

  /** The secret of a line whose key ends in `__FROM`, with that suffix removed. */
  function SecretOf(entry: string): Secret
    requires IsSecretKey(KeyOf(entry))
  {
    Secret(KeyOf(entry)[..|KeyOf(entry)| - 6], ValueOf(entry))
  }

  /** The `filter` and `map` of `getSecretsForECS` over the flattened lines. */
  function SecretsOf(lines: seq<string>): seq<Secret>
    decreases |lines|
  {
    if lines == [] then []
    else (if IsSecretKey(KeyOf(lines[0])) then [SecretOf(lines[0])] else []) + SecretsOf(lines[1..])
  }

  /** `getSecretsForECS`. */
  function GetSecretsForECS(configFile: Node): Result<seq<Secret>, JsError> {
    match Lines(configFile)
    case Err(e) => Err(e)
    case Ok(lines) => Ok(SecretsOf(lines))
  }

  /** Exactly the lines with a `__FROM` key give secrets, in order, with the suffix stripped. */
  lemma {:induction false} SecretsOfSpec(lines: seq<string>)
    ensures |SecretsOf(lines)| <= |lines|
    ensures forall s | s in SecretsOf(lines) ::
              exists j | 0 <= j < |lines| :: IsSecretKey(KeyOf(lines[j])) && s == SecretOf(lines[j])
    ensures forall j | 0 <= j < |lines| && IsSecretKey(KeyOf(lines[j])) :: SecretOf(lines[j]) in SecretsOf(lines)
    decreases |lines|
  {
    if lines != [] {
      SecretsOfSpec(lines[1..]);
      assert forall j | 0 <= j < |lines| - 1 :: lines[1..][j] == lines[j + 1];
    }
  }

  /**
   * The secrets keep the order and the multiplicity of their lines: those of
   * every prefix come before those of the rest (SecretsOfOne says what one line gives).
   */
  lemma SecretsOfOrder(lines: seq<string>)
    ensures forall j | 0 <= j <= |lines| :: SecretsOf(lines) == SecretsOf(lines[..j]) + SecretsOf(lines[j..])
  {
    forall j | 0 <= j <= |lines| ensures SecretsOf(lines) == SecretsOf(lines[..j]) + SecretsOf(lines[j..]) {
      assert lines == lines[..j] + lines[j..];
      SecretsOfAppend(lines[..j], lines[j..]);
    }
  }

  /** One line gives its own secret when its key ends in `__FROM`, and none otherwise. */
  lemma SecretsOfOne(l: string)
    ensures SecretsOf([l]) == if IsSecretKey(KeyOf(l)) then [SecretOf(l)] else []
  {
    assert [l][1..] == [];
  }

  /** The secrets of two runs of lines, one after the other, are theirs in that order. */
  lemma {:induction false} SecretsOfAppend(a: seq<string>, b: seq<string>)
    ensures SecretsOf(a + b) == SecretsOf(a) + SecretsOf(b)
    decreases |a|
  {
    if a != [] {
      assert (a + b)[0] == a[0];
      assert (a + b)[1..] == a[1..] + b;
      SecretsOfAppend(a[1..], b);
    } else {
      assert a + b == b;
    }
  }

  // ---------------------------------------------------------------------------
  // Flattening and reading back

  lemma {:induction false} JoinNoEq(segs: seq<string>)
    requires |segs| >= 1 && forall i | 0 <= i < |segs| :: '=' !in segs[i]
    ensures '=' !in Join(segs)
    decreases |segs|
  {
    if |segs| > 1 {
      JoinNoEq(segs[1..]);
    }
  }

  lemma {:induction false} JoinSnoc(p: seq<string>, f: string)
    requires |p| >= 1
    ensures Join(p + [f]) == Join(p) + Delim + f
    decreases |p|
  {
    if |p| > 1 {
      JoinSnoc(p[1..], f);
      assert (p + [f])[1..] == p[1..] + [f];
    } else {
      assert (p + [f])[1..] == [f];
    }
  }

  /** Every segment of a path that exists in a plain tree is a plain key. */
  lemma {:induction false} PathSegments(obj: Node, p: seq<string>)
    requires Plain(obj) && obj.Branch? && |p| >= 1 && Lookup(obj.entries, p).Some?
    ensures forall i | 0 <= i < |p| :: Segment(p[i]) && '=' !in p[i]
    decreases |p|
  {
    var j := GetFound(obj.entries, p[0]);
    var v := obj.entries[j].1;
    if |p| > 1 {
      PathSegments(v, p[1..]);
      forall i | 0 < i < |p| ensures Segment(p[i]) && '=' !in p[i] {
        assert p[i] == p[1..][i - 1];
      }
    }
  }

  /** In a plain tree the joined path tells the leaf. */
  lemma LeafByJoin(obj: Node, p: seq<string>, leaf: Node, q: seq<string>, other: Node)
    requires Plain(obj) && LeafAt(obj, p, leaf) && LeafAt(obj, q, other) && Join(p) == Join(q)
    ensures p == q && leaf == other
  {
    PathSegments(obj, p);
    PathSegments(obj, q);
    SplitJoin(p);
    SplitJoin(q);
  }

  /**
   * `env2record(obj2env(tree))` gives back every string leaf of a plain
   * tree under its joined path, provided the value has no `=`.
   */
  lemma FlattenRoundTrip(obj: Node, p: seq<string>, v: string)
    requires Plain(obj) && LeafAt(obj, p, Scalar(v)) && '=' !in v
    ensures Lines(obj).Ok? && Get(Env2Record(Lines(obj).value), Join(p)) == Some(Some(v))
  {
    PlainLines(obj);
    var lines := Lines(obj).value;
    var line := Line(p, Scalar(v));
    PathSegments(obj, p);
    JoinNoEq(p);
    LineFields(Join(p), v);
    var k := Join(p);
    var i :| 0 <= i < |lines| && lines[i] == line;
    Env2RecordGet(lines, k);
    var j :| LastKeyed(lines, k, j) && Get(Env2Record(lines), k) == Some(ValueOf(lines[j]));
    assert lines[j] in lines;
    var q, other :| LeafAt(obj, q, other) && lines[j] == Line(q, other);
    PathSegments(obj, q);
    JoinNoEq(q);
    LineFields(Join(q), ToStr(Defined(other)));
    LeafByJoin(obj, p, Scalar(v), q, other);
  }

  lemma SuffixSlices(a: string, f: string)
    requires |f| == 4
    ensures var key := a + Delim + f;
            key[..|key| - 6] == a && key[|key| - 6..|key| - 4] == Delim && key[|key| - 4..] == f
  {
  }

  /** A string leaf under a key spelled FROM becomes a secret named by the path above it. */
  lemma PlainSecret(obj: Node, p: seq<string>, f: string, v: string)
    requires Plain(obj) && |p| >= 1 && LeafAt(obj, p + [f], Scalar(v)) && EqualsIgnoreCase(f, "FROM") && '=' !in v
    ensures GetSecretsForECS(obj).Ok? && Secret(Join(p), Some(v)) in GetSecretsForECS(obj).value
  {
    var path := p + [f];
    PlainLines(obj);
    var lines := Lines(obj).value;
    var line := Line(path, Scalar(v));
    assert line in lines;
    PathSegments(obj, path);
    JoinNoEq(path);
    LineFields(Join(path), v);
    JoinSnoc(p, f);
    SuffixSlices(Join(p), f);
    assert KeyOf(line) == Join(p) + Delim + f;
    assert IsSecretKey(KeyOf(line));
    assert SecretOf(line) == Secret(Join(p), Some(v));
    SecretsOfSpec(lines);
  }

  // ---------------------------------------------------------------------------
  // Merged trees keep distinct keys

  lemma {:induction false} MergeEntriesDistinct(t: Dict<Node>, source: Node, i: nat)
    requires source.Branch? && i <= |source.entries| && Distinct(t)
    ensures Distinct(MergeEntries(t, source, i))
    decreases i
  {
    if i > 0 {
      MergeEntriesDistinct(t, source, i - 1);
      MergeStepDistinct(t, source, i);
    }
  }

  /** One step of the merge assigns one key, which keeps the keys distinct. */
  lemma MergeStepDistinct(t: Dict<Node>, source: Node, i: nat)
    requires source.Branch? && 0 < i <= |source.entries| && Distinct(MergeEntries(t, source, i - 1))
    ensures Distinct(MergeEntries(t, source, i))
  {
    var acc := MergeEntries(t, source, i - 1);
    var entry := source.entries[i - 1];
    if IsObject(Defined(entry.1)) {
      PutDistinct(acc, entry.0, Merge(MergeBase(acc, entry.0), entry.1));
    } else {
      PutDistinct(acc, entry.0, entry.1);
    }
  }

  lemma {:induction false} Env2ObjDistinct(env: Dict<string>)
    ensures Distinct(Env2Obj(env).entries)
    decreases |env|
  {
    if env != [] {
      var n := |env| - 1;
      Env2ObjDistinct(env[..n]);
      var c := DelimitedStringToObject(env[n].0, Scalar(env[n].1));
      DelimitedStringToObjectSpec(env[n].0, Scalar(env[n].1), []);
      MergeEntriesDistinct(Env2Obj(env[..n]).entries, c, |c.entries|);
    }
  }

  // ---------------------------------------------------------------------------
  // pushToProcessEnv and the loadConfig of this file

  /** `pushToProcessEnv`: each key is written only when the ambient environment lacks it. */
  method PushToProcessEnv(obj: Dict<string>, ambient: Dict<string>) returns (after: Dict<string>)
    ensures after == AddMissing(ambient, obj)
  {
    after := ambient;
    var i := 0;
    while i < |obj|
      invariant 0 <= i <= |obj|
      invariant after == AddMissing(ambient, obj[..i])
    {
      assert obj[..i + 1][..i] == obj[..i];
      var (key, value) := obj[i];
      if Get(after, key).None? {
        after := Put(after, key, value);
      }
      i := i + 1;
    }
    assert obj[..i] == obj;
  }

  /** The keys `loadConfig` merges: they contain the delimiter and do not start with it. */
  predicate Mergeable(key: string) {
    HasDelim(key) && !StartsWith(key, Delim)
  }

  /** The `filter` of `loadConfig` over the entries of the environment. */
  function MergeableEntries(env: Dict<string>): Dict<string>
    decreases |env|
  {
    if env == [] then []
    else
      var last := env[|env| - 1];
      MergeableEntries(env[..|env| - 1]) + (if Mergeable(last.0) then [last] else [])
  }

  /** The filter keeps exactly the mergeable entries. */
  lemma {:induction false} MergeableEntriesSpec(env: Dict<string>)
    ensures forall e | e in MergeableEntries(env) :: e in env && Mergeable(e.0)
    ensures forall e | e in env && Mergeable(e.0) :: e in MergeableEntries(env)
    decreases |env|
  {
    if env != [] {
      var n := |env| - 1;
      MergeableEntriesSpec(env[..n]);
      assert env == env[..n] + [env[n]];
    }
  }

  /**
   * The filter keeps the order and the multiplicity of the entries: that of
   * every prefix comes before that of the rest, and one entry stays or goes.
   */
  lemma MergeableEntriesOrder(env: Dict<string>)
    ensures forall j | 0 <= j <= |env| :: MergeableEntries(env) == MergeableEntries(env[..j]) + MergeableEntries(env[j..])
    ensures forall e :: MergeableEntries([e]) == if Mergeable(e.0) then [e] else []
  {
    forall j | 0 <= j <= |env| ensures MergeableEntries(env) == MergeableEntries(env[..j]) + MergeableEntries(env[j..]) {
      assert env == env[..j] + env[j..];
      MergeableEntriesAppend(env[..j], env[j..]);
    }
    forall e ensures MergeableEntries([e]) == if Mergeable(e.0) then [e] else [] {
      assert [e][..0] == [];
    }
  }

  /** The filter of two runs of entries, one after the other, is theirs in that order. */
  lemma {:induction false} MergeableEntriesAppend(a: Dict<string>, b: Dict<string>)
    ensures MergeableEntries(a + b) == MergeableEntries(a) + MergeableEntries(b)
    decreases |b|
  {
    if b != [] {
      var n := |b| - 1;
      assert (a + b)[..|a + b| - 1] == a + b[..n];
      assert (a + b)[|a + b| - 1] == b[n];
      MergeableEntriesAppend(a, b[..n]);
    } else {
      assert a + b == a;
    }
  }

  /** `loadYaml(...).stages[stage]`; reading a property of what is not there throws. */
  function StageOf(doc: Dict<Node>, stage: string): Result<Node, JsError> {
    match Get(doc, "stages")
    case None => Err(TypeError)
    case Some(stages) =>
      match Index(Defined(stages), stage)
      case Ok(Defined(config)) => Ok(config)
      case _ => Err(TypeError)
  }

  /** `config[k]`, which is never a TypeError once the stage exists. */
  function Prop(config: Node, k: string): Js {
    if config.Branch? then At(config.entries, k) else Undefined
  }

  /**
   * What `Object.assign(env, config.environment)` copies: the string entries
   * of a mapping, or the characters or items of a string or list under their
   * indices.
   */
  function EnvironmentBlock(config: Node): Dict<string> {
    match Prop(config, "environment")
    case Defined(Branch(e)) => Scalars(e)
    case Defined(n) => Indexed(n)
    case Undefined => []
  }

  /** `env_files.forEach(f => Object.assign(env, loadEnv(root, f)))`; a missing file throws. */
  function FilesOnto(env: Dict<string>, names: seq<string>, envFiles: map<string, Dict<string>>): Result<Dict<string>, JsError>
    decreases |names|
  {
    if names == [] then Ok(env)
    else match FilesOnto(env, names[..|names| - 1], envFiles)
      case Err(e) => Err(e)
      case Ok(acc) =>
        var last := names[|names| - 1];
        if last in envFiles then Ok(Assign(acc, envFiles[last])) else Err(FileNotFound(last))
  }

  lemma {:induction false} FilesOntoErrPersists(env: Dict<string>, names: seq<string>, envFiles: map<string, Dict<string>>, j: nat)
    requires j <= |names| && FilesOnto(env, names[..j], envFiles).Err?
    ensures FilesOnto(env, names, envFiles) == FilesOnto(env, names[..j], envFiles)
    decreases |names|
  {
    if j < |names| {
      assert names[..|names| - 1][..j] == names[..j];
      FilesOntoErrPersists(env, names[..|names| - 1], envFiles, j);
    } else {
      assert names[..j] == names;
    }
  }

  /** The environment before the ambient one is assigned over it: the block, then the files. */
  function FileEnv(config: Node, envFiles: map<string, Dict<string>>): Result<Dict<string>, JsError> {
    var block := Assign([], EnvironmentBlock(config));
    var files := Prop(config, "env_files");
    if !Truthy(files) then Ok(block)
    else if files.node.List? then FilesOnto(block, files.node.items, envFiles)
    else Err(TypeError)
  }

  /** The whole environment: the ambient one assigned last. */
  function LegacyEnv(config: Node, envFiles: map<string, Dict<string>>, ambient: Dict<string>): Result<Dict<string>, JsError> {
    match FileEnv(config, envFiles)
    case Err(e) => Err(e)
    case Ok(env) => Ok(Assign(env, ambient))
  }

  /** The stage tree with a truthy `environment` and a truthy `env_files` deleted. */
  function Stripped(config: Node): Node {
    if !config.Branch? then config
    else
      var e1 := if Truthy(At(config.entries, "environment")) then Remove(config.entries, "environment") else config.entries;
      var e2 := if Truthy(At(e1, "env_files")) then Remove(e1, "env_files") else e1;
      Branch(e2)
  }

  /**
   * `loadConfig(name, stage, root)` of this file: the ambient environment
   * afterwards, and the merged tree or the error thrown.
   */
  function LegacyLoadSpec(name: string, stage: string, yamlFiles: map<string, Dict<Node>>,
                          envFiles: map<string, Dict<string>>, ambient: Dict<string>): (Dict<string>, Result<Node, JsError>)
  {
    if name !in yamlFiles then (ambient, Err(FileNotFound(name)))
    else match StageOf(yamlFiles[name], stage)
      case Err(e) => (ambient, Err(e))
      case Ok(config) =>
        match LegacyEnv(config, envFiles, ambient)
        case Err(e) => (ambient, Err(e))
        case Ok(env) => (AddMissing(ambient, env), Ok(Merge(Stripped(config), Env2Obj(MergeableEntries(env)))))
  }

  /**
   * A stage that is a string or a list has no `environment` or `env_files`
   * and is not merged into, so it is loaded as it is; `getConfigForECS`
   * then flattens it by index (see `IndexedLines`).
   */
  lemma LegacyIndexedStage(name: string, stage: string, yamlFiles: map<string, Dict<Node>>,
                           envFiles: map<string, Dict<string>>, ambient: Dict<string>)
    requires name in yamlFiles && StageOf(yamlFiles[name], stage).Ok?
    requires !StageOf(yamlFiles[name], stage).value.Branch?
    ensures LegacyLoadSpec(name, stage, yamlFiles, envFiles, ambient).1 == StageOf(yamlFiles[name], stage)
  {
  }

  /** The loop over `env_files`: each file read and assigned, in order, onto `base`. */
  method AssignFiles(base: Dict<string>, names: seq<string>, envFiles: map<string, Dict<string>>)
    returns (r: Result<Dict<string>, JsError>)
    ensures r == FilesOnto(base, names, envFiles)
  {
    var acc := base;
    var i := 0;
    while i < |names|
      invariant 0 <= i <= |names|
      invariant FilesOnto(base, names[..i], envFiles) == Ok(acc)
    {
      assert names[..i + 1][..i] == names[..i];
      if names[i] !in envFiles {
        FilesOntoErrPersists(base, names, envFiles, i + 1);
        return Err(FileNotFound(names[i]));
      }
      acc := Assign(acc, envFiles[names[i]]);
      i := i + 1;
    }
    assert names[..i] == names;
    r := Ok(acc);
  }

  /**
   * The first half of `loadConfig`: copy and delete `environment`, read the
   * dotenv files over it and delete `env_files`.
   */
  method CollectEnvironment(original: Node, envFiles: map<string, Dict<string>>)
    returns (config: Node, env: Result<Dict<string>, JsError>)
    ensures env == FileEnv(original, envFiles)
    ensures env.Ok? ==> config == Stripped(original)
  {
    config := original;
    var acc: Dict<string> := [];
    if Truthy(Prop(config, "environment")) {
      acc := Assign(acc, EnvironmentBlock(config));
      config := Branch(Remove(config.entries, "environment"));
    } else {
      assert EnvironmentBlock(config) == [];
    }
    assert Prop(config, "env_files") == Prop(original, "env_files");
    var files := Prop(config, "env_files");
    if Truthy(files) {
      if !files.node.List? {
        return config, Err(TypeError);
      }
      var read := AssignFiles(acc, files.node.items, envFiles);
      if read.Err? {
        return config, read;
      }
      acc := read.value;
      config := Branch(Remove(config.entries, "env_files"));
    }
    env := Ok(acc);
  }

  /** `loadConfig`: the stage, the environment, the push and the merge. */
  method LegacyLoadConfig(name: string, stage: string, yamlFiles: map<string, Dict<Node>>,
                          envFiles: map<string, Dict<string>>, ambient: Dict<string>)
    returns (ambientAfter: Dict<string>, r: Result<Node, JsError>)
    ensures (ambientAfter, r) == LegacyLoadSpec(name, stage, yamlFiles, envFiles, ambient)
  {
    if name !in yamlFiles {
      return ambient, Err(FileNotFound(name));
    }
    var loaded := StageOf(yamlFiles[name], stage);
    if loaded.Err? {
      return ambient, Err(loaded.error);
    }
    var config, collected := CollectEnvironment(loaded.value, envFiles);
    if collected.Err? {
      return ambient, Err(collected.error);
    }
    var env := Assign(collected.value, ambient);
    ambientAfter := PushToProcessEnv(env, ambient);
    var merged := MergeDeep(config, Env2Obj(MergeableEntries(env)));
    r := Ok(merged);
  }

  /**
   * `getConfigForECS`: the loaded tree flattened to lines and read back into
   * a record.
   */
  method GetConfigForECS(name: string, stage: string, yamlFiles: map<string, Dict<Node>>,
                         envFiles: map<string, Dict<string>>, ambient: Dict<string>)
    returns (ambientAfter: Dict<string>, r: Result<Dict<Option<string>>, JsError>)
    ensures ambientAfter == LegacyLoadSpec(name, stage, yamlFiles, envFiles, ambient).0
    ensures var loaded := LegacyLoadSpec(name, stage, yamlFiles, envFiles, ambient).1;
            r == if loaded.Err? then Err(loaded.error)
                 else if Lines(loaded.value).Err? then Err(Lines(loaded.value).error)
                 else Ok(Env2Record(Lines(loaded.value).value))
  {
    var loaded;
    ambientAfter, loaded := LegacyLoadConfig(name, stage, yamlFiles, envFiles, ambient);
    if loaded.Err? {
      return ambientAfter, Err(loaded.error);
    }
    var lines := Obj2Env(loaded.value);
    if lines.Err? {
      return ambientAfter, Err(lines.error);
    }
    r := Ok(Env2Record(lines.value));
  }

  // ---------------------------------------------------------------------------
  // What this loadConfig promises

  /** A successful read found every listed file. */
  lemma {:induction false} FilesOntoFound(base: Dict<string>, names: seq<string>, envFiles: map<string, Dict<string>>)
    requires FilesOnto(base, names, envFiles).Ok?
    ensures forall j | 0 <= j < |names| :: names[j] in envFiles
    decreases |names|
  {
    if names != [] {
      var n := |names| - 1;
      FilesOntoFound(base, names[..n], envFiles);
      assert forall j | 0 <= j < n :: names[..n][j] == names[j];
    }
  }

  /**
   * Later dotenv files win key by key: a key some file defines has the value
   * of the last file that defines it; any other key keeps the value it had.
   */
  lemma {:induction false} FilesOntoGet(base: Dict<string>, names: seq<string>, envFiles: map<string, Dict<string>>, k: string)
    requires forall n | n in envFiles :: Distinct(envFiles[n])
    requires forall j | 0 <= j < |names| :: names[j] in envFiles
    ensures FilesOnto(base, names, envFiles).Ok?
    ensures (forall j | 0 <= j < |names| :: Get(envFiles[names[j]], k).None?) ==>
            Get(FilesOnto(base, names, envFiles).value, k) == Get(base, k)
    ensures (exists j | 0 <= j < |names| :: Get(envFiles[names[j]], k).Some?) ==>
            exists j | 0 <= j < |names| ::
              Get(envFiles[names[j]], k).Some? && Get(envFiles[names[j]], k) == Get(FilesOnto(base, names, envFiles).value, k) &&
              forall m | j < m < |names| :: Get(envFiles[names[m]], k).None?
  {
    FilesOntoAll(base, names, envFiles);
    var es := Selected(names, envFiles);
    AssignAllGet(base, es, k);
    var last := LastDefining(es, k);
    if last.Some? {
      var j := last.value;
      assert Get(envFiles[names[j]], k) == Get(FilesOnto(base, names, envFiles).value, k);
    }
  }

  /** With every file present, the dotenv files are assigned onto the block one after the other. */
  lemma {:induction false} FilesOntoAll(base: Dict<string>, names: seq<string>, envFiles: map<string, Dict<string>>)
    requires forall j | 0 <= j < |names| :: names[j] in envFiles
    ensures FilesOnto(base, names, envFiles) == Ok(AssignAll(base, Selected(names, envFiles)))
    decreases |names|
  {
    if names != [] {
      var n := |names| - 1;
      assert forall j | 0 <= j < n :: names[..n][j] == names[j];
      FilesOntoAll(base, names[..n], envFiles);
      assert Selected(names, envFiles)[..n] == Selected(names[..n], envFiles);
    }
  }

  /** The ambient environment overrides the stage's environment and the dotenv files. */
  lemma LegacyEnvPrecedence(config: Node, envFiles: map<string, Dict<string>>, ambient: Dict<string>, k: string)
    requires Distinct(ambient) && FileEnv(config, envFiles).Ok?
    ensures Get(LegacyEnv(config, envFiles, ambient).value, k) ==
            if Get(ambient, k).Some? then Get(ambient, k) else Get(FileEnv(config, envFiles).value, k)
  {
    AssignGet(FileEnv(config, envFiles).value, ambient, k);
  }

  /**
   * The ambient environment keeps every value it had, in order, and on
   * success agrees with the built environment on every key.
   */
  lemma LegacyLoadAmbient(name: string, stage: string, yamlFiles: map<string, Dict<Node>>,
                          envFiles: map<string, Dict<string>>, ambient: Dict<string>, k: string)
    requires Distinct(ambient)
    ensures var after := LegacyLoadSpec(name, stage, yamlFiles, envFiles, ambient).0;
            |ambient| <= |after| && after[..|ambient|] == ambient &&
            (Get(ambient, k).Some? ==> Get(after, k) == Get(ambient, k))
    ensures var after := LegacyLoadSpec(name, stage, yamlFiles, envFiles, ambient).0;
            if name in yamlFiles && StageOf(yamlFiles[name], stage).Ok? &&
               LegacyEnv(StageOf(yamlFiles[name], stage).value, envFiles, ambient).Ok?
            then Get(after, k) == Get(LegacyEnv(StageOf(yamlFiles[name], stage).value, envFiles, ambient).value, k)
            else after == ambient
  {
    if name in yamlFiles && StageOf(yamlFiles[name], stage).Ok? {
      var config := StageOf(yamlFiles[name], stage).value;
      if LegacyEnv(config, envFiles, ambient).Ok? {
        var env := LegacyEnv(config, envFiles, ambient).value;
        AddMissingSpec(ambient, env);
        LegacyEnvPrecedence(config, envFiles, ambient, k);
      }
    }
  }

  /** Whatever the merge holds at a key, the target or the source held there. */
  lemma MergeKeys(target: Dict<Node>, source: Dict<Node>, k: string)
    requires Distinct(source) && Get(Merge(Branch(target), Branch(source)).entries, k).Some?
    ensures Get(target, k).Some? || Get(source, k).Some?
  {
    MergeGet(target, source, k);
  }

  /** Deleting the reserved keys: a truthy one is gone, a falsy one stays. */
  lemma StrippedGet(config: Node, root: string)
    requires config.Branch? && (root == "environment" || root == "env_files")
    ensures Stripped(config).Branch?
    ensures Get(Stripped(config).entries, root) ==
            if Truthy(At(config.entries, root)) then None else Get(config.entries, root)
  {
  }

  /** After the deletes and the merge, a reserved key is a falsy leftover or re-created by a variable. */
  lemma ReservedAfterMerge(config: Node, env: Dict<string>, root: string)
    requires config.Branch? && (root == "environment" || root == "env_files")
    requires Get(Merge(Stripped(config), Env2Obj(MergeableEntries(env))).entries, root).Some?
    ensures (Get(config.entries, root).Some? && !Truthy(At(config.entries, root))) ||
            exists j | 0 <= j < |MergeableEntries(env)| :: Split(MergeableEntries(env)[j].0)[0] == root
  {
    var merged := MergeableEntries(env);
    var obj := Env2Obj(merged);
    Env2ObjDistinct(merged);
    StrippedGet(config, root);
    MergeKeys(Stripped(config).entries, obj.entries, root);
    if Get(obj.entries, root).Some? {
      Env2ObjRoots(merged, root);
    }
  }

  /**
   * `environment` and `env_files` are deleted from the returned tree: one
   * is still there only when the stage held it falsy, or when a merged
   * variable's first segment re-creates it.
   */
  lemma LegacyLoadReserved(name: string, stage: string, yamlFiles: map<string, Dict<Node>>,
                           envFiles: map<string, Dict<string>>, ambient: Dict<string>, root: string)
    requires root == "environment" || root == "env_files"
    requires LegacyLoadSpec(name, stage, yamlFiles, envFiles, ambient).1.Ok?
    requires LegacyLoadSpec(name, stage, yamlFiles, envFiles, ambient).1.value.Branch?
    requires Get(LegacyLoadSpec(name, stage, yamlFiles, envFiles, ambient).1.value.entries, root).Some?
    ensures var config := StageOf(yamlFiles[name], stage).value;
            var merged := MergeableEntries(LegacyEnv(config, envFiles, ambient).value);
            (config.Branch? && Get(config.entries, root).Some? && !Truthy(At(config.entries, root))) ||
            exists j | 0 <= j < |merged| :: Split(merged[j].0)[0] == root
  {
    var config := StageOf(yamlFiles[name], stage).value;
    var env := LegacyEnv(config, envFiles, ambient).value;
    var result := Merge(Stripped(config), Env2Obj(MergeableEntries(env)));
    assert LegacyLoadSpec(name, stage, yamlFiles, envFiles, ambient).1 == Ok(result);
    if config.Branch? {
      ReservedAfterMerge(config, env, root);
    }
  }
}
