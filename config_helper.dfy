/**
 * The layered configuration loader of src/config.helper.ts: a stage of the
 * YAML document, overlaid by environment variables written as delimited
 * paths (`app__db__host=...` sets `db.host`).
 */
module ConfigHelper {
  import opened Wrappers
  import opened Strings
  import opened Dict
  import opened ConfigTree

  /** The three structural conflicts; each carries the offending key. */
  datatype MergeError =
    | ArrayChange(key: string)
    | StructureChange(key: string)
    | StructureOverride(key: string)

  /** The text of the error thrown for each conflict. */
  function MergeMessage(e: MergeError): string {
    match e
    case ArrayChange(k) => "Tried to change config array: " + k
    case StructureChange(k) => "Tried to change config structure with env: " + k
    case StructureOverride(k) => "Tried to override config structure with env: " + k
  }

  const DefaultPrefix: string := "app"

  /** Top-level keys the environment may not write. */
  const ReservedRoots: seq<string> := ["environment", "env_files"]

  /**
   * The path an environment key writes to, or None when the key is skipped.
   * The prefix `false` of the source is the empty string here: both are falsy.
   */
  function ValuePath(key: string, prefix: string): (r: Option<seq<string>>)
    ensures StartsWith(key, Delim) || EndsWith(key, Delim) ==> r.None?
    ensures r.Some? ==> |r.value| >= 1 && r.value[0] !in ReservedRoots
    ensures r.Some? ==> key == if prefix == "" then Join(r.value) else prefix + Delim + Join(r.value)
  {
    if StartsWith(key, Delim) || EndsWith(key, Delim) then None
    else
      var segs := Split(key);
      JoinSplit(key);
      var rest := if prefix != "" then segs[1..] else segs;
      if prefix != "" && segs[0] != prefix then None
      else if |rest| == 0 || rest[0] in ReservedRoots then None
      else Some(rest)
  }

  /** Splitting a key that starts with an underscore-free word and the delimiter. */
  lemma {:induction false} SplitPrefixed(w: string, rest: string)
    requires forall i | 0 <= i < |w| :: w[i] != '_'
    ensures Split(w + Delim + rest) == [w] + Split(rest)
    decreases |w|
  {
    if w == [] {
      assert w + Delim + rest == Delim + rest;
      assert (Delim + rest)[2..] == rest;
    } else {
      SplitPrefixed(w[1..], rest);
      var s := w + Delim + rest;
      assert s[0] == w[0] && s[1..] == w[1..] + Delim + rest;
      if |w| == 1 {
        assert s[1] == '_';
      } else {
        assert s[1] == w[1];
      }
      assert [w[0]] + w[1..] == w;
    }
  }

  /**
   * Under the default prefix, `app__<rest>` writes to the path `rest` splits
   * into, unless it ends with the delimiter or its first segment is reserved;
   * deeper segments named like reserved roots are written.
   */
  lemma PrefixedKeyApplies(rest: string)
    requires !EndsWith(DefaultPrefix + Delim + rest, Delim)
    requires Split(rest)[0] !in ReservedRoots
    ensures ValuePath(DefaultPrefix + Delim + rest, DefaultPrefix) == Some(Split(rest))
  {
    SplitPrefixed(DefaultPrefix, rest);
    var key := DefaultPrefix + Delim + rest;
    assert key[..2] == "ap";
  }

  /**
   * One step of the walk down the tree: the mapping to continue in below key `n`,
   * an empty one when `n` is missing.
   */
  function Descend(d: Dict<Node>, n: string, key: string): Result<Dict<Node>, MergeError> {
    match Get<Node>(d, n)
    case None => Ok([])
    case Some(Branch(c)) => Ok(c)
    case Some(List(_)) => Err(ArrayChange(key))
    case Some(Scalar(_)) => Err(StructureChange(key))
  }

  /** Writing `value` at `path` below `d`, as the walk of one environment key does. */
  function SetAtPath(d: Dict<Node>, path: seq<string>, key: string, value: string): Result<Dict<Node>, MergeError>
    requires |path| >= 1
    decreases |path|
  {
    var n := path[0];
    if |path| > 1 then
      var below := Descend(d, n, key);
      if below.Err? then Err(below.error)
      else
        var r := SetAtPath(below.value, path[1..], key, value);
        if r.Err? then r else Ok(Put(d, n, Branch(r.value)))
    else
      match Get<Node>(d, n)
      case Some(Branch(_)) => Err(StructureOverride(key))
      case Some(List(_)) => Err(StructureOverride(key))
      case _ => Ok(Put(d, n, Scalar(value)))
  }

  /** Writing the updated innermost mapping back into the mappings above it. */
  function Plug(frames: seq<Dict<Node>>, segs: seq<string>, inner: Dict<Node>): Dict<Node>
    requires |frames| == |segs|
    decreases |frames|
  {
    if frames == [] then inner
    else
      var k := |frames| - 1;
      Plug(frames[..k], segs[..k], Put(frames[k], segs[k], Branch(inner)))
  }

  function PlugResult(frames: seq<Dict<Node>>, segs: seq<string>, r: Result<Dict<Node>, MergeError>): Result<Dict<Node>, MergeError>
    requires |frames| == |segs|
  {
    if r.Err? then r else Ok(Plug(frames, segs, r.value))
  }

  /**
   * The `while (true)` walk of one key: move down the tree one segment at a
   * time, creating missing mappings, and set the value at the last segment.
   * `frames` holds the mappings passed on the way, so that the write through
   * the cursor can be carried back up to the root.
   */
  method WalkAndSet(config: Dict<Node>, path: seq<string>, key: string, value: string)
    returns (r: Result<Dict<Node>, MergeError>)
    requires |path| >= 1
    ensures r == SetAtPath(config, path, key, value)
  {
    var frames: seq<Dict<Node>> := [];
    var p := config;
    var i := 0;
    while i < |path| - 1
      invariant 0 <= i <= |path| - 1 && |frames| == i
      invariant SetAtPath(config, path, key, value) == PlugResult(frames, path[..i], SetAtPath(p, path[i..], key, value))
    {
      var below := Descend(p, path[i], key);
      assert path[i..][0] == path[i] && path[i..][1..] == path[i + 1..];
      if below.Err? {
        return Err(below.error);
      }
      assert (frames + [p])[..i] == frames && path[..i + 1][..i] == path[..i];
      frames := frames + [p];
      p := below.value;
      i := i + 1;
    }
    var n := path[i];
    assert path[i..] == [n];
    var current := Get(p, n);
    if current.Some? && (current.value.Branch? || current.value.List?) {
      return Err(StructureOverride(key));
    }
    r := Ok(Plug(frames, path[..i], Put(p, n, Scalar(value))));
  }

  /** One environment entry applied to the tree: skipped, written, or a conflict. */
  function ApplyEntry(config: Dict<Node>, entry: (string, string), prefix: string): Result<Dict<Node>, MergeError> {
    match ValuePath(entry.0, prefix)
    case None => Ok(config)
    case Some(path) => SetAtPath(config, path, entry.0, entry.1)
  }

  /** All entries applied in order; the first conflict aborts the merge. */
  function MergeEnv(config: Dict<Node>, env: Dict<string>, prefix: string): Result<Dict<Node>, MergeError>
    decreases |env|
  {
    if env == [] then Ok(config)
    else match MergeEnv(config, env[..|env| - 1], prefix)
      case Err(e) => Err(e)
      case Ok(t) => ApplyEntry(t, env[|env| - 1], prefix)
  }

  /** Once a prefix of the entries has failed, the whole merge fails with that error. */
  lemma {:induction false} MergeEnvErrPersists(config: Dict<Node>, env: Dict<string>, prefix: string, j: nat)
    requires j <= |env| && MergeEnv(config, env[..j], prefix).Err?
    ensures MergeEnv(config, env, prefix) == MergeEnv(config, env[..j], prefix)
    decreases |env|
  {
    if j < |env| {
      assert env[..|env| - 1][..j] == env[..j];
      MergeEnvErrPersists(config, env[..|env| - 1], prefix, j);
    } else {
      assert env[..j] == env;
    }
  }

  /** `loadEnvironmentIntoConfig`: the loop over the entries of the environment. */
  method LoadEnvironmentIntoConfig(config: Dict<Node>, environment: Dict<string>, prefix: string)
    returns (r: Result<Dict<Node>, MergeError>)
    ensures r == MergeEnv(config, environment, prefix)
  {
    var t := config;
    var i := 0;
    while i < |environment|
      invariant 0 <= i <= |environment|
      invariant MergeEnv(config, environment[..i], prefix) == Ok(t)
    {
      var step := LoadEntry(t, environment[i], prefix);
      MergeEnvStep(config, environment, prefix, i);
      if step.Err? {
        MergeEnvErrPersists(config, environment, prefix, i + 1);
        return Err(step.error);
      }
      t := step.value;
      i := i + 1;
    }
    assert environment[..i] == environment;
    r := Ok(t);
  }

  /** One pass of that loop: a key that names a path under the prefix is written there. */
  method LoadEntry(config: Dict<Node>, entry: (string, string), prefix: string)
    returns (r: Result<Dict<Node>, MergeError>)
    ensures r == ApplyEntry(config, entry, prefix)
  {
    var (key, value) := entry;
    var path := ValuePath(key, prefix);
    if path.Some? {
      r := WalkAndSet(config, path.value, key, value);
    } else {
      r := Ok(config);
    }
  }

  // ---------------------------------------------------------------------------
  // What writing one path does

  /** A node the walk cannot pass through: a scalar or a sequence. */
  ghost predicate LeafAt(d: Dict<Node>, q: seq<string>) {
    Lookup(d, q).Some? && !Lookup(d, q).value.Branch?
  }

  /** The first `j - 1` segments of `p` lead through mappings or nothing. */
  ghost predicate Clear(d: Dict<Node>, p: seq<string>, j: nat)
    requires j <= |p|
  {
    forall i | 1 <= i < j :: !LeafAt(d, p[..i])
  }

  /** The last segment of `p` names a mapping or a sequence. */
  ghost predicate StructAt(d: Dict<Node>, p: seq<string>) {
    Lookup(d, p).Some? && !Lookup(d, p).value.Scalar?
  }

  lemma {:induction false} LookupShift(d: Dict<Node>, c: Dict<Node>, p: seq<string>, i: nat)
    requires 1 <= i <= |p| && Get(d, p[0]) == Some(Branch(c))
    ensures Lookup(d, p[..i]) == Lookup(c, p[1..][..i - 1])
  {
    LookupThrough(d, c, p[..i]);
    assert p[..i][1..] == p[1..][..i - 1];
  }

  /** The mapping a missing or mapped first segment leads to, and what lies below it. */
  lemma {:induction false} ClearShift(d: Dict<Node>, c: Dict<Node>, p: seq<string>, j: nat)
    requires 1 <= j <= |p| && Get(d, p[0]) == Some(Branch(c))
    ensures Clear(d, p, j) <==> Clear(c, p[1..], j - 1)
  {
    forall i | 1 <= i < j ensures LeafAt(d, p[..i]) <==> (i >= 2 && LeafAt(c, p[1..][..i - 1])) {
      LookupShift(d, c, p, i);
    }
    if Clear(c, p[1..], j - 1) {
      forall i | 1 <= i < j ensures !LeafAt(d, p[..i]) {
        LookupShift(d, c, p, i);
        if i >= 2 { assert !LeafAt(c, p[1..][..i - 1]); }
      }
    }
    if Clear(d, p, j) {
      forall i | 1 <= i < j - 1 ensures !LeafAt(c, p[1..][..i]) {
        LookupShift(d, c, p, i + 1);
        assert !LeafAt(d, p[..i + 1]);
      }
    }
  }

  /** Below a missing first segment nothing blocks the walk. */
  lemma {:induction false} ClearMissing(d: Dict<Node>, p: seq<string>)
    requires |p| >= 1 && Get(d, p[0]).None?
    ensures Clear(d, p, |p|) && !StructAt(d, p)
  {
    forall i | 1 <= i < |p| ensures !LeafAt(d, p[..i]) {
      LookupMissingHead(d, p[..i]);
    }
    LookupMissingHead(d, p);
  }

  /**
   * How a walk fails: through a sequence (the first node on the way that is
   * not a mapping is a sequence), through a scalar (that node is a scalar),
   * or at the last segment, which holds a mapping or a sequence. A walk that
   * succeeds met none of these.
   */
  lemma {:induction false} SetAtPathWitness(d: Dict<Node>, p: seq<string>, key: string, v: string)
    requires |p| >= 1
    ensures Witnessed(d, p, key, SetAtPath(d, p, key, v))
    decreases |p|
  {
    var n := p[0];
    assert p[..1] == [n];
    if |p| == 1 {
      assert p == [n];
    } else {
      match Get<Node>(d, n)
      case None =>
        ClearMissing(d, p);
        SetAtPathOnEmpty(p[1..], key, v);
      case Some(Branch(c)) =>
        SetAtPathWitness(c, p[1..], key, v);
        WitnessedThrough(d, c, p, key, SetAtPath(c, p[1..], key, v));
      case Some(List(_)) =>
        assert Clear(d, p, 1);
      case Some(Scalar(_)) =>
        assert Clear(d, p, 1);
    }
  }

  /** What the outcome of the walk says about the tree it walked. */
  ghost predicate Witnessed(d: Dict<Node>, p: seq<string>, key: string, r: Result<Dict<Node>, MergeError>)
    requires |p| >= 1
  {
    && (r.Ok? ==> Clear(d, p, |p|) && !StructAt(d, p))
    && (r.Err? ==> r.error.key == key)
    && (r.Err? && r.error.ArrayChange? ==>
          exists i | 1 <= i < |p| :: Clear(d, p, i) && Lookup(d, p[..i]).Some? && Lookup(d, p[..i]).value.List?)
    && (r.Err? && r.error.StructureChange? ==>
          exists i | 1 <= i < |p| :: Clear(d, p, i) && Lookup(d, p[..i]).Some? && Lookup(d, p[..i]).value.Scalar?)
    && (r.Err? && r.error.StructureOverride? ==> Clear(d, p, |p|) && StructAt(d, p))
  }

  /** A walk through the mapping at `p[0]` witnesses for the whole path what it witnesses below. */
  lemma WitnessedThrough(d: Dict<Node>, c: Dict<Node>, p: seq<string>, key: string, r: Result<Dict<Node>, MergeError>)
    requires |p| >= 2 && Get(d, p[0]) == Some(Branch(c)) && Witnessed(c, p[1..], key, r)
    ensures Witnessed(d, p, key, if r.Err? then r else Ok(Put(d, p[0], Branch(r.value))))
  {
    ClearShift(d, c, p, |p|);
    LookupThrough(d, c, p);
    if r.Err? && r.error.ArrayChange? {
      var i :| 1 <= i < |p[1..]| && Clear(c, p[1..], i) && Lookup(c, p[1..][..i]).Some? && Lookup(c, p[1..][..i]).value.List?;
      ObstacleShift(d, c, p, i);
    }
    if r.Err? && r.error.StructureChange? {
      var i :| 1 <= i < |p[1..]| && Clear(c, p[1..], i) && Lookup(c, p[1..][..i]).Some? && Lookup(c, p[1..][..i]).value.Scalar?;
      ObstacleShift(d, c, p, i);
    }
  }

  /** An obstacle `i` segments into the mapping at `p[0]` is `i + 1` segments into the whole tree. */
  lemma ObstacleShift(d: Dict<Node>, c: Dict<Node>, p: seq<string>, i: nat)
    requires |p| >= 2 && Get(d, p[0]) == Some(Branch(c)) && 1 <= i < |p| - 1 && Clear(c, p[1..], i)
    ensures 1 <= i + 1 < |p| && Clear(d, p, i + 1) && Lookup(d, p[..i + 1]) == Lookup(c, p[1..][..i])
  {
    ClearShift(d, c, p, i + 1);
    LookupShift(d, c, p, i + 1);
  }

  /**
   * The walk of one key succeeds exactly when no scalar or sequence lies on
   * the way and the last segment is missing or a scalar; otherwise the error
   * names the first obstacle.
   */
  lemma SetAtPathOutcome(d: Dict<Node>, p: seq<string>, key: string, v: string)
    requires |p| >= 1
    ensures SetAtPath(d, p, key, v).Ok? <==> Clear(d, p, |p|) && !StructAt(d, p)
    ensures SetAtPath(d, p, key, v) == Err(ArrayChange(key)) <==>
            exists i | 1 <= i < |p| :: Clear(d, p, i) && Lookup(d, p[..i]).Some? && Lookup(d, p[..i]).value.List?
    ensures SetAtPath(d, p, key, v) == Err(StructureChange(key)) <==>
            exists i | 1 <= i < |p| :: Clear(d, p, i) && Lookup(d, p[..i]).Some? && Lookup(d, p[..i]).value.Scalar?
    ensures SetAtPath(d, p, key, v) == Err(StructureOverride(key)) <==> Clear(d, p, |p|) && StructAt(d, p)
  {
    SetAtPathWitness(d, p, key, v);
    var r := SetAtPath(d, p, key, v);
    // Two obstacles found on the same walk are one and the same node.
    forall i, j | 1 <= i < |p| && 1 <= j < |p| && Clear(d, p, i) && Clear(d, p, j) && LeafAt(d, p[..i]) && LeafAt(d, p[..j])
      ensures i == j
    {
    }
    forall i | 1 <= i < |p| && Clear(d, p, |p|) ensures Clear(d, p, i) && !LeafAt(d, p[..i]) { }
  }

  /** Writing into an empty mapping builds the chain of mappings down to the value. */
  function Nest(p: seq<string>, v: string): Dict<Node>
    requires |p| >= 1
    decreases |p|
  {
    [(p[0], if |p| == 1 then Scalar(v) else Branch(Nest(p[1..], v)))]
  }

  /** Missing segments are created as empty mappings: `app__a__b=v` on `{}` gives `{a: {b: "v"}}`. */
  lemma {:induction false} SetAtPathOnEmpty(p: seq<string>, key: string, v: string)
    requires |p| >= 1
    ensures SetAtPath([], p, key, v) == Ok(Nest(p, v))
    decreases |p|
  {
    if |p| > 1 {
      SetAtPathOnEmpty(p[1..], key, v);
    }
  }

  /**
   * A successful write puts the scalar at the path and leaves every node off
   * the path where it was; only the mappings along the path are touched.
   */
  lemma {:induction false} SetAtPathFrame(d: Dict<Node>, p: seq<string>, key: string, v: string)
    requires |p| >= 1 && SetAtPath(d, p, key, v).Ok?
    ensures Lookup(SetAtPath(d, p, key, v).value, p) == Some(Scalar(v))
    ensures forall q :: !IsPrefix(q, p) ==> Lookup(SetAtPath(d, p, key, v).value, q) == Lookup(d, q)
    decreases |p|
  {
    var r := SetAtPath(d, p, key, v).value;
    var n := p[0];
    if |p| == 1 {
      assert r == Put(d, n, Scalar(v));
      forall q | !IsPrefix(q, p) ensures Lookup(r, q) == Lookup(d, q) {
        if q != [] && q[0] == n {
          assert |q| >= 2;
        } else if q != [] {
          LookupHead(r, d, q);
        }
      }
    } else {
      var c0 := Descend(d, n, key).value;
      var c' := SetAtPath(c0, p[1..], key, v).value;
      assert r == Put(d, n, Branch(c'));
      SetAtPathFrame(c0, p[1..], key, v);
      LookupThrough(r, c', p);
      forall q | !IsPrefix(q, p) ensures Lookup(r, q) == Lookup(d, q) {
        if q != [] && q[0] == n {
          assert !IsPrefix(q[1..], p[1..]);
          LookupThrough(r, c', q);
          if Get(d, n).None? {
            LookupMissingHead(d, q);
            LookupMissingHead(c0, q[1..]);
          } else {
            LookupThrough(d, c0, q);
          }
        } else if q != [] {
          LookupHead(r, d, q);
        }
      }
    }
  }

  /** Writing a path the value it already holds changes nothing. */
  lemma {:induction false} SetAtPathNoop(d: Dict<Node>, p: seq<string>, key: string, v: string)
    requires |p| >= 1 && Lookup(d, p) == Some(Scalar(v))
    ensures SetAtPath(d, p, key, v) == Ok(d)
    decreases |p|
  {
    var n := p[0];
    if |p| == 1 {
      PutSame(d, n);
    } else {
      var c := Get(d, n).value.entries;
      SetAtPathNoop(c, p[1..], key, v);
      PutSame(d, n);
    }
  }

  // ---------------------------------------------------------------------------
  // What merging a whole environment does

  lemma DistinctInit(env: Dict<string>, n: nat)
    requires Distinct(env) && n <= |env|
    ensures Distinct(env[..n])
  {
    forall a, b | 0 <= a < b < n ensures env[..n][a].0 != env[..n][b].0 {
      assert env[..n][a] == env[a] && env[..n][b] == env[b];
    }
  }

  /**
   * After a successful merge every entry that was applied can be read back at
   * its path: keys are distinct, so no two entries write the same path, and a
   * path below another entry's scalar would have failed.
   */
  lemma {:induction false} MergeEnvLeaves(config: Dict<Node>, env: Dict<string>, prefix: string, i: nat)
    requires Distinct(env) && MergeEnv(config, env, prefix).Ok?
    requires i < |env| && ValuePath(env[i].0, prefix).Some?
    ensures Lookup(MergeEnv(config, env, prefix).value, ValuePath(env[i].0, prefix).value) == Some(Scalar(env[i].1))
    decreases |env|
  {
    var n := |env| - 1;
    var init := env[..n];
    var t := MergeEnv(config, init, prefix).value;
    var pi := ValuePath(env[i].0, prefix).value;
    if i == n {
      SetAtPathFrame(t, pi, env[n].0, env[n].1);
    } else {
      DistinctInit(env, n);
      assert init[i] == env[i];
      MergeEnvLeaves(config, init, prefix, i);
      var pn := ValuePath(env[n].0, prefix);
      if pn.Some? {
        assert env[i].0 != env[n].0;
        OtherWriteKeeps(t, pi, env[i].1, pn.value, env[n].0, env[n].1);
      }
    }
  }

  /** A successful write to another path leaves a scalar where it was. */
  lemma OtherWriteKeeps(t: Dict<Node>, q: seq<string>, w: string, p: seq<string>, key: string, v: string)
    requires Lookup(t, q) == Some(Scalar(w)) && q != p
    requires |p| >= 1 && SetAtPath(t, p, key, v).Ok?
    ensures Lookup(SetAtPath(t, p, key, v).value, q) == Some(Scalar(w))
  {
    assert !IsPrefix(q, p) by {
      assert Clear(t, p, |p|) by {
        SetAtPathOutcome(t, p, key, v);
      }
      if |q| < |p| && IsPrefix(q, p) {
        ClearBlocks(t, p, q);
      }
    }
    SetAtPathFrame(t, p, key, v);
  }

  /** Merging into a tree that already holds every applied value changes nothing. */
  lemma {:induction false} MergeEnvSettled(t: Dict<Node>, env: Dict<string>, prefix: string)
    requires forall i | 0 <= i < |env| && ValuePath(env[i].0, prefix).Some? ::
               Lookup(t, ValuePath(env[i].0, prefix).value) == Some(Scalar(env[i].1))
    ensures MergeEnv(t, env, prefix) == Ok(t)
    decreases |env|
  {
    if env != [] {
      var n := |env| - 1;
      forall i | 0 <= i < n && ValuePath(env[..n][i].0, prefix).Some?
        ensures Lookup(t, ValuePath(env[..n][i].0, prefix).value) == Some(Scalar(env[..n][i].1))
      {
        assert env[..n][i] == env[i];
      }
      MergeEnvSettled(t, env[..n], prefix);
      var pn := ValuePath(env[n].0, prefix);
      if pn.Some? {
        SetAtPathNoop(t, pn.value, env[n].0, env[n].1);
      }
    }
  }

  /** Merging the same environment twice gives the same tree as merging it once. */
  lemma MergeEnvIdempotent(config: Dict<Node>, env: Dict<string>, prefix: string)
    requires Distinct(env) && MergeEnv(config, env, prefix).Ok?
    ensures MergeEnv(MergeEnv(config, env, prefix).value, env, prefix) == MergeEnv(config, env, prefix)
  {
    var t := MergeEnv(config, env, prefix).value;
    forall i | 0 <= i < |env| && ValuePath(env[i].0, prefix).Some?
      ensures Lookup(t, ValuePath(env[i].0, prefix).value) == Some(Scalar(env[i].1))
    {
      MergeEnvLeaves(config, env, prefix, i);
    }
    MergeEnvSettled(t, env, prefix);
  }

  /** A scalar stays a scalar through every successful write (its value may change). */
  lemma ScalarPersists(d: Dict<Node>, p: seq<string>, key: string, v: string, q: seq<string>)
    requires |p| >= 1 && SetAtPath(d, p, key, v).Ok?
    requires Lookup(d, q).Some? && Lookup(d, q).value.Scalar?
    ensures Lookup(SetAtPath(d, p, key, v).value, q).Some? && Lookup(SetAtPath(d, p, key, v).value, q).value.Scalar?
  {
    assert Clear(d, p, |p|) by {
      SetAtPathOutcome(d, p, key, v);
    }
    SetAtPathFrame(d, p, key, v);
    if IsPrefix(q, p) {
      if |q| < |p| {
        ClearBlocks(d, p, q);
      } else {
        assert q == p[..|p|] == p;
      }
    }
  }

  /** A walk that is clear meets no scalar or list strictly above its end. */
  lemma ClearBlocks(d: Dict<Node>, p: seq<string>, q: seq<string>)
    requires Clear(d, p, |p|) && IsPrefix(q, p) && 1 <= |q| < |p|
    ensures !LeafAt(d, q)
  {
    assert p[..|q|] == q;
  }

  /** A scalar stays a scalar through every prefix of a merge that succeeds. */
  lemma {:induction false} ScalarPersistsMerge(config: Dict<Node>, env: Dict<string>, prefix: string, q: seq<string>)
    requires Lookup(config, q).Some? && Lookup(config, q).value.Scalar?
    requires MergeEnv(config, env, prefix).Ok?
    ensures Lookup(MergeEnv(config, env, prefix).value, q).Some? && Lookup(MergeEnv(config, env, prefix).value, q).value.Scalar?
    decreases |env|
  {
    if env != [] {
      var n := |env| - 1;
      ScalarPersistsMerge(config, env[..n], prefix, q);
      var t := MergeEnv(config, env[..n], prefix).value;
      var pn := ValuePath(env[n].0, prefix);
      if pn.Some? {
        ScalarPersists(t, pn.value, env[n].0, env[n].1, q);
      }
    }
  }

  /**
   * Conflict rejection: when the tree holds a scalar at `q` and some entry
   * writes below `q`, the merge fails.
   */
  lemma MergeEnvConflict(config: Dict<Node>, env: Dict<string>, prefix: string, q: seq<string>, i: nat)
    requires Lookup(config, q).Some? && Lookup(config, q).value.Scalar?
    requires i < |env| && ValuePath(env[i].0, prefix).Some?
    requires IsPrefix(q, ValuePath(env[i].0, prefix).value) && |q| < |ValuePath(env[i].0, prefix).value|
    ensures MergeEnv(config, env, prefix).Err?
  {
    var before := MergeEnv(config, env[..i], prefix);
    if before.Ok? {
      ScalarPersistsMerge(config, env[..i], prefix, q);
      var p := ValuePath(env[i].0, prefix).value;
      ScalarBlocksWrite(before.value, p, env[i].0, env[i].1, q);
      MergeEnvStep(config, env, prefix, i);
    } else {
      MergeEnvStep(config, env, prefix, i);
    }
    MergeEnvErrPersists(config, env, prefix, i + 1);
  }

  /** The merge of one more entry applies that entry to the merge so far. */
  lemma MergeEnvStep(config: Dict<Node>, env: Dict<string>, prefix: string, i: nat)
    requires i < |env|
    ensures MergeEnv(config, env[..i + 1], prefix) ==
            match MergeEnv(config, env[..i], prefix)
            case Err(e) => Err(e)
            case Ok(t) => ApplyEntry(t, env[i], prefix)
  {
    assert env[..i + 1][..i] == env[..i];
    assert env[..i + 1][i] == env[i];
  }

  /** A write strictly below a scalar fails. */
  lemma ScalarBlocksWrite(d: Dict<Node>, p: seq<string>, key: string, v: string, q: seq<string>)
    requires Lookup(d, q).Some? && Lookup(d, q).value.Scalar?
    requires |p| >= 1 && IsPrefix(q, p) && |q| < |p|
    ensures SetAtPath(d, p, key, v).Err?
  {
    SetAtPathOutcome(d, p, key, v);
    assert p[..|q|] == q;
    assert LeafAt(d, p[..|q|]);
  }

  /** The reserved roots are never written by a merge. */
  lemma {:induction false} MergeEnvKeepsReserved(config: Dict<Node>, env: Dict<string>, prefix: string, root: string)
    requires root in ReservedRoots && MergeEnv(config, env, prefix).Ok?
    ensures Lookup(MergeEnv(config, env, prefix).value, [root]) == Lookup(config, [root])
    decreases |env|
  {
    if env != [] {
      var n := |env| - 1;
      MergeEnvKeepsReserved(config, env[..n], prefix, root);
      var pn := ValuePath(env[n].0, prefix);
      if pn.Some? {
        SetAtPathFrame(MergeEnv(config, env[..n], prefix).value, pn.value, env[n].0, env[n].1);
        assert pn.value[0] != root;
      }
    }
  }

  // ---------------------------------------------------------------------------
  // loadConfig: stage tree, environment tiers, ambient environment

  /** Why `loadConfig` throws. */
  datatype LoadError =
    | StageNotDefined
    | ConfigFileNotFound(name: string)
      // the document has no `stages` mapping: reading a property of undefined
    | NoStages
      // `env_files` is not a sequence: calling `reduce` on it fails
    | EnvFilesNotList
    | EnvFileNotFound(name: string)
    | Merge(error: MergeError)

  const DefaultConfigFile: string := "config.yaml"

  /** Defaults of the stage configuration, before the stage tree is spread over them. */
  const StageDefaults: Dict<Node> := [("environment", Branch([])), ("env_files", List([]))]

  /** The configuration file: the argument, else a non-empty CONFIG_FILE, else the default. */
  function ConfigFileName(fileName: Option<string>, ambient: Dict<string>): string {
    match fileName
    case Some(name) => name
    case None =>
      match Get(ambient, "CONFIG_FILE")
      case Some(name) => if name != "" then name else DefaultConfigFile
      case None => DefaultConfigFile
  }

  /**
   * What spreading `readYaml(...).stages[stage]` copies: the stage's
   * entries, or the characters or items of a string or list stage under
   * their indices. An absent stage spreads nothing.
   */
  function StageTree(doc: Dict<Node>, stage: string): Result<Dict<Node>, LoadError> {
    match Get(doc, "stages")
    case None => Err(NoStages)
    case Some(stages) =>
      match Get(Members(stages), stage)
      case Some(tree) => Ok(Members(tree))
      case None => Ok([])
  }

  /** `{environment: {}, env_files: [], ...tree}`. */
  function StageConfig(tree: Dict<Node>): Dict<Node> {
    Assign(StageDefaults, tree)
  }

  /**
   * The first tier, the spread of `config.environment`: the string entries
   * of a mapping, or the characters or items of a string or list under
   * their indices.
   */
  function EnvBlock(config: Dict<Node>): Dict<string> {
    match Get<Node>(config, "environment")
    case Some(Branch(e)) => Scalars(e)
    case Some(n) => Indexed(n)
    case None => []
  }

  /** The dotenv files the stage lists. */
  function EnvFileNames(config: Dict<Node>): Result<seq<string>, LoadError> {
    match Get<Node>(config, "env_files")
    case Some(List(names)) => Ok(names)
    case _ => Err(EnvFilesNotList)
  }

  /** The second tier: the listed dotenv files, each spread over the previous ones. */
  function ReadEnvFiles(names: seq<string>, envFiles: map<string, Dict<string>>): Result<Dict<string>, LoadError>
    decreases |names|
  {
    if names == [] then Ok([])
    else match ReadEnvFiles(names[..|names| - 1], envFiles)
      case Err(e) => Err(e)
      case Ok(acc) =>
        var last := names[|names| - 1];
        if last in envFiles then Ok(Assign(acc, envFiles[last])) else Err(EnvFileNotFound(last))
  }

  /** `{...block, ...files, ...ambient}`. */
  function Environment(block: Dict<string>, files: Dict<string>, ambient: Dict<string>): Dict<string> {
    Assign(Assign(Assign([], block), files), ambient)
  }

  /** The stage configuration `loadConfig` starts from. */
  function LoadStage(root: string, stage: string, fileName: Option<string>,
                     yamlFiles: map<string, Dict<Node>>, ambient: Dict<string>): Result<Dict<Node>, LoadError>
  {
    if root == "" || stage == "" then Err(StageNotDefined)
    else
      var name := ConfigFileName(fileName, ambient);
      if name !in yamlFiles then Err(ConfigFileNotFound(name))
      else match StageTree(yamlFiles[name], stage)
        case Err(e) => Err(e)
        case Ok(tree) => Ok(StageConfig(tree))
  }

  /** The merged environment of a stage configuration. */
  function LoadEnvironment(config: Dict<Node>, envFiles: map<string, Dict<string>>, ambient: Dict<string>): Result<Dict<string>, LoadError> {
    match EnvFileNames(config)
    case Err(e) => Err(e)
    case Ok(names) =>
      match ReadEnvFiles(names, envFiles)
      case Err(e) => Err(e)
      case Ok(files) => Ok(Environment(EnvBlock(config), files, ambient))
  }

  /**
   * The whole of `loadConfig`: the ambient environment afterwards, and the
   * configuration or the error thrown. The ambient environment is updated
   * before the merge, so it is updated even when the merge fails.
   */
  function LoadConfigSpec(root: string, stage: string, fileName: Option<string>,
                          yamlFiles: map<string, Dict<Node>>, envFiles: map<string, Dict<string>>,
                          ambient: Dict<string>): (Dict<string>, Result<Dict<Node>, LoadError>)
  {
    match LoadStage(root, stage, fileName, yamlFiles, ambient)
    case Err(e) => (ambient, Err(e))
    case Ok(config) =>
      match LoadEnvironment(config, envFiles, ambient)
      case Err(e) => (ambient, Err(e))
      case Ok(environment) =>
        (AddMissing(ambient, environment),
         match MergeEnv(config, environment, DefaultPrefix)
         case Err(e) => Err(Merge(e))
         case Ok(t) => Ok(t))
  }

  /** The loop that adds to the ambient environment each variable it does not have yet. */
  method AddMissingToProcessEnv(env: Dict<string>, ambient: Dict<string>) returns (after: Dict<string>)
    ensures after == AddMissing(ambient, env)
  {
    after := ambient;
    var i := 0;
    while i < |env|
      invariant 0 <= i <= |env|
      invariant after == AddMissing(ambient, env[..i])
    {
      var (k, v) := env[i];
      assert env[..i + 1][..i] == env[..i];
      if Get(after, k).None? && Get(after, k) != Some(v) {
        after := Put(after, k, v);
      }
      i := i + 1;
    }
    assert env[..i] == env;
  }

  /**
   * `loadConfig`. The YAML documents and dotenv files are given already parsed,
   * keyed by file name; the ambient environment is passed in and returned.
   */
  method LoadConfig(root: string, stage: string, fileName: Option<string>,
                    yamlFiles: map<string, Dict<Node>>, envFiles: map<string, Dict<string>>,
                    ambient: Dict<string>)
    returns (ambientAfter: Dict<string>, r: Result<Dict<Node>, LoadError>)
    ensures (ambientAfter, r) == LoadConfigSpec(root, stage, fileName, yamlFiles, envFiles, ambient)
  {
    ambientAfter := ambient;
    var loaded := LoadStage(root, stage, fileName, yamlFiles, ambient);
    if loaded.Err? {
      return ambient, Err(loaded.error);
    }
    var config := loaded.value;
    var environment := LoadEnvironment(config, envFiles, ambient);
    if environment.Err? {
      return ambient, Err(environment.error);
    }
    var env := environment.value;
    ambientAfter := AddMissingToProcessEnv(env, ambient);
    var merged := LoadEnvironmentIntoConfig(config, env, DefaultPrefix);
    r := if merged.Ok? then Ok(merged.value) else Err(Merge(merged.error));
  }

  // ---------------------------------------------------------------------------
  // What loadConfig promises

  /** The stage tree wins over the defaults key by key; the two defaults stay in front. */
  lemma StageConfigGet(tree: Dict<Node>, k: string)
    requires Distinct(tree)
    ensures Get(StageConfig(tree), k) == if Get(tree, k).Some? then Get(tree, k) else Get(StageDefaults, k)
    ensures |StageConfig(tree)| >= 2 && Keys(StageConfig(tree))[..2] == ["environment", "env_files"]
  {
    AssignGet(StageDefaults, tree, k);
    AssignKeepsOrder(StageDefaults, tree);
  }

  /** Each tier overrides the previous one key by key: ambient, then files, then the block. */
  lemma EnvironmentPrecedence(block: Dict<string>, files: Dict<string>, ambient: Dict<string>, k: string)
    requires Distinct(block) && Distinct(files) && Distinct(ambient)
    ensures Get(Environment(block, files, ambient), k) ==
            if Get(ambient, k).Some? then Get(ambient, k)
            else if Get(files, k).Some? then Get(files, k)
            else Get(block, k)
    ensures Distinct(Environment(block, files, ambient))
  {
    AssignGet([], block, k);
    AssignGet(Assign([], block), files, k);
    AssignGet(Assign(Assign([], block), files), ambient, k);
    AssignKeepsOrder([], block);
    AssignKeepsOrder(Assign([], block), files);
    AssignKeepsOrder(Assign(Assign([], block), files), ambient);
  }

  /** The dotenv files are read in order; the first missing one is the error. */
  lemma {:induction false} ReadEnvFilesOutcome(names: seq<string>, envFiles: map<string, Dict<string>>)
    ensures ReadEnvFiles(names, envFiles).Ok? <==> forall j | 0 <= j < |names| :: names[j] in envFiles
    ensures ReadEnvFiles(names, envFiles).Err? ==>
            exists j | 0 <= j < |names| :: names[j] !in envFiles &&
              ReadEnvFiles(names, envFiles) == Err(EnvFileNotFound(names[j])) &&
              forall l | 0 <= l < j :: names[l] in envFiles
    decreases |names|
  {
    if names != [] {
      var n := |names| - 1;
      ReadEnvFilesOutcome(names[..n], envFiles);
      assert forall j | 0 <= j < n :: names[..n][j] == names[j];
    }
  }

  /** Combining dotenv files never repeats a key. */
  lemma {:induction false} ReadEnvFilesDistinct(names: seq<string>, envFiles: map<string, Dict<string>>)
    requires ReadEnvFiles(names, envFiles).Ok?
    ensures Distinct(ReadEnvFiles(names, envFiles).value)
    decreases |names|
  {
    if names != [] {
      var n := |names| - 1;
      ReadEnvFilesDistinct(names[..n], envFiles);
      AssignKeepsOrder(ReadEnvFiles(names[..n], envFiles).value, envFiles[names[n]]);
    }
  }

  /**
   * Later files win: a key of the combined files has the value of the last
   * file that defines it, and a key no file defines is absent.
   */
  lemma {:induction false} ReadEnvFilesLastWins(names: seq<string>, envFiles: map<string, Dict<string>>, k: string)
    requires forall j | 0 <= j < |names| :: names[j] in envFiles
    requires forall n | n in envFiles :: Distinct(envFiles[n])
    ensures ReadEnvFiles(names, envFiles).Ok?
    ensures Get(ReadEnvFiles(names, envFiles).value, k).None? ==>
            forall j | 0 <= j < |names| :: Get(envFiles[names[j]], k).None?
    ensures Get(ReadEnvFiles(names, envFiles).value, k).Some? ==>
            exists j | 0 <= j < |names| ::
              Get(envFiles[names[j]], k) == Get(ReadEnvFiles(names, envFiles).value, k) &&
              forall l | j < l < |names| :: Get(envFiles[names[l]], k).None?
  {
    ReadEnvFilesAll(names, envFiles);
    var es := Selected(names, envFiles);
    AssignAllGet([], es, k);
    var last := LastDefining(es, k);
    if last.Some? {
      var j := last.value;
      assert Get(envFiles[names[j]], k) == Get(ReadEnvFiles(names, envFiles).value, k);
    }
  }

  /** With every file present, reading them is assigning them one after the other. */
  lemma {:induction false} ReadEnvFilesAll(names: seq<string>, envFiles: map<string, Dict<string>>)
    requires forall j | 0 <= j < |names| :: names[j] in envFiles
    ensures ReadEnvFiles(names, envFiles) == Ok(AssignAll([], Selected(names, envFiles)))
    decreases |names|
  {
    if names != [] {
      var n := |names| - 1;
      assert forall j | 0 <= j < n :: names[..n][j] == names[j];
      ReadEnvFilesAll(names[..n], envFiles);
      assert Selected(names, envFiles)[..n] == Selected(names[..n], envFiles);
    }
  }

  /**
   * The ambient environment keeps every value it had, in order, and gains
   * only missing keys; once the environment is built, the ambient
   * environment agrees with it on every key.
   */
  lemma LoadConfigAmbient(root: string, stage: string, fileName: Option<string>,
                          yamlFiles: map<string, Dict<Node>>, envFiles: map<string, Dict<string>>,
                          ambient: Dict<string>, k: string)
    requires Distinct(ambient)
    ensures var after := LoadConfigSpec(root, stage, fileName, yamlFiles, envFiles, ambient).0;
            |ambient| <= |after| && after[..|ambient|] == ambient &&
            (Get(ambient, k).Some? ==> Get(after, k) == Get(ambient, k))
    ensures var after := LoadConfigSpec(root, stage, fileName, yamlFiles, envFiles, ambient).0;
            var config := LoadStage(root, stage, fileName, yamlFiles, ambient);
            if config.Ok? && LoadEnvironment(config.value, envFiles, ambient).Ok?
            then Get(after, k) == Get(LoadEnvironment(config.value, envFiles, ambient).value, k)
            else after == ambient
  {
    var config := LoadStage(root, stage, fileName, yamlFiles, ambient);
    if config.Ok? && LoadEnvironment(config.value, envFiles, ambient).Ok? {
      var names := EnvFileNames(config.value).value;
      var files := ReadEnvFiles(names, envFiles).value;
      var block := EnvBlock(config.value);
      var env := Environment(block, files, ambient);
      AddMissingSpec(ambient, env);
      AssignGet(Assign(Assign([], block), files), ambient, k);
    }
  }

  /** A successful load holds every applied key of the environment at its path. */
  lemma LoadConfigLeaves(root: string, stage: string, fileName: Option<string>,
                         yamlFiles: map<string, Dict<Node>>, envFiles: map<string, Dict<string>>,
                         ambient: Dict<string>, k: string)
    requires LoadConfigSpec(root, stage, fileName, yamlFiles, envFiles, ambient).1.Ok?
    requires ValuePath(k, DefaultPrefix).Some?
    ensures var config := LoadStage(root, stage, fileName, yamlFiles, ambient).value;
            var env := LoadEnvironment(config, envFiles, ambient).value;
            var t := LoadConfigSpec(root, stage, fileName, yamlFiles, envFiles, ambient).1.value;
            (Get(env, k).Some? ==> Lookup(t, ValuePath(k, DefaultPrefix).value) == Some(Scalar(Get(env, k).value))) &&
            Lookup(t, ["environment"]) == Lookup(config, ["environment"]) &&
            Lookup(t, ["env_files"]) == Lookup(config, ["env_files"])
  {
    var config := LoadStage(root, stage, fileName, yamlFiles, ambient).value;
    var names := EnvFileNames(config).value;
    var files := ReadEnvFiles(names, envFiles).value;
    var block := EnvBlock(config);
    var env := Environment(block, files, ambient);
    AssignKeepsOrder([], block);
    AssignKeepsOrder(Assign([], block), files);
    AssignKeepsOrder(Assign(Assign([], block), files), ambient);
    if Get(env, k).Some? {
      var i := GetFound(env, k);
      MergeEnvLeaves(config, env, DefaultPrefix, i);
    }
    MergeEnvKeepsReserved(config, env, DefaultPrefix, "environment");
    MergeEnvKeepsReserved(config, env, DefaultPrefix, "env_files");
  }

  /** The ambient environment has the last word: its value is the one the tree holds. */
  lemma LoadConfigAmbientWins(root: string, stage: string, fileName: Option<string>,
                              yamlFiles: map<string, Dict<Node>>, envFiles: map<string, Dict<string>>,
                              ambient: Dict<string>, k: string, v: string)
    requires Distinct(ambient) && Get(ambient, k) == Some(v)
    requires LoadConfigSpec(root, stage, fileName, yamlFiles, envFiles, ambient).1.Ok?
    requires ValuePath(k, DefaultPrefix).Some?
    ensures Lookup(LoadConfigSpec(root, stage, fileName, yamlFiles, envFiles, ambient).1.value,
                   ValuePath(k, DefaultPrefix).value) == Some(Scalar(v))
  {
    var config := LoadStage(root, stage, fileName, yamlFiles, ambient).value;
    var names := EnvFileNames(config).value;
    var files := ReadEnvFiles(names, envFiles).value;
    AssignGet(Assign(Assign([], EnvBlock(config)), files), ambient, k);
    LoadConfigLeaves(root, stage, fileName, yamlFiles, envFiles, ambient, k);
  }

  /**
   * The errors `loadConfig` throws before any merge, and the merge errors it
   * passes on; in every error case before the merge the ambient environment
   * is left alone.
   */
  lemma LoadConfigErrors(root: string, stage: string, fileName: Option<string>,
                         yamlFiles: map<string, Dict<Node>>, envFiles: map<string, Dict<string>>,
                         ambient: Dict<string>)
    ensures root == "" || stage == "" ==>
            LoadConfigSpec(root, stage, fileName, yamlFiles, envFiles, ambient) == (ambient, Err(StageNotDefined))
    ensures var name := ConfigFileName(fileName, ambient);
            root != "" && stage != "" && name !in yamlFiles ==>
            LoadConfigSpec(root, stage, fileName, yamlFiles, envFiles, ambient) == (ambient, Err(ConfigFileNotFound(name)))
    ensures var r := LoadConfigSpec(root, stage, fileName, yamlFiles, envFiles, ambient).1;
            r.Err? && r.error.Merge? ==>
            var config := LoadStage(root, stage, fileName, yamlFiles, ambient);
            config.Ok? && LoadEnvironment(config.value, envFiles, ambient).Ok? &&
            MergeEnv(config.value, LoadEnvironment(config.value, envFiles, ambient).value, DefaultPrefix) == Err(r.error.error)
  {
    var config := LoadStage(root, stage, fileName, yamlFiles, ambient);
    if config.Ok? {
      var env := LoadEnvironment(config.value, envFiles, ambient);
      if env.Ok? {
        assert LoadConfigSpec(root, stage, fileName, yamlFiles, envFiles, ambient).1 ==
               match MergeEnv(config.value, env.value, DefaultPrefix)
               case Err(e) => Err(Merge(e))
               case Ok(t) => Ok(t);
      } else if EnvFileNames(config.value).Ok? {
        ReadEnvFilesOutcome(EnvFileNames(config.value).value, envFiles);
      }
    }
  }
}
