/**
 * String operations the configuration code relies on: JavaScript's
 * `split`, `startsWith`, `endsWith` and `includes`, specialised to the
 * path delimiter `__` and to the `=` of `key=value` lines.
 */
module Strings {
  import opened Wrappers

  /** The path delimiter used throughout the configuration code. */
  const Delim: string := "__"

  predicate StartsWith(s: string, p: string) {
    |p| <= |s| && s[..|p|] == p
  }

  predicate EndsWith(s: string, p: string) {
    |p| <= |s| && s[|s| - |p|..] == p
  }

  /** `s.includes("__")`. */
  predicate HasDelim(s: string)
    decreases |s|
  {
    |s| >= 2 && ((s[0] == '_' && s[1] == '_') || HasDelim(s[1..]))
  }

  /**
   * `s.split("__")`: the delimiter is matched left to right without overlap,
   * so "a___b" splits into "a" and "_b".
   */
  function Split(s: string): (r: seq<string>)
    ensures |r| >= 1
    decreases |s|
  {
    if |s| < 2 then [s]
    else if s[0] == '_' && s[1] == '_' then [""] + Split(s[2..])
    else
      var t := Split(s[1..]);
      [[s[0]] + t[0]] + t[1..]
  }

  /** `segs.join("__")`. */
  function Join(segs: seq<string>): string
    requires |segs| >= 1
  {
    if |segs| == 1 then segs[0] else segs[0] + Delim + Join(segs[1..])
  }

  /** Splitting and joining again gives back the original key. */
  lemma {:induction false} JoinSplit(s: string)
    ensures Join(Split(s)) == s
    decreases |s|
  {
    if |s| < 2 {
    } else if s[0] == '_' && s[1] == '_' {
      JoinSplit(s[2..]);
      JoinEmptyHead(Split(s[2..]));
      assert s == Delim + s[2..];
    } else {
      JoinSplit(s[1..]);
      JoinConsHead(s[0], Split(s[1..]));
      assert s == [s[0]] + s[1..];
    }
  }

  /** An empty first segment puts a delimiter in front. */
  lemma JoinEmptyHead(t: seq<string>)
    requires |t| >= 1
    ensures Join([""] + t) == Delim + Join(t)
  {
    var u := [""] + t;
    assert u[0] == "" && u[1..] == t;
    assert Join(u) == u[0] + Delim + Join(u[1..]);
    assert "" + Delim == Delim;
  }

  /** A character in front of the first segment is a character in front of the join. */
  lemma JoinConsHead(c: char, t: seq<string>)
    requires |t| >= 1
    ensures Join([[c] + t[0]] + t[1..]) == [c] + Join(t)
  {
    if |t| > 1 {
      assert ([[c] + t[0]] + t[1..])[1..] == t[1..];
    }
  }

  /** The first segment of a split is a prefix of the string. */
  lemma {:induction false} SplitHeadPrefix(s: string)
    ensures StartsWith(s, Split(s)[0])
    decreases |s|
  {
    if |s| < 2 {
    } else if s[0] == '_' && s[1] == '_' {
    } else {
      SplitHeadPrefix(s[1..]);
      var t := Split(s[1..]);
      assert s[1..][..|t[0]|] == t[0];
      assert s[..|t[0]| + 1] == [s[0]] + s[1..][..|t[0]|];
    }
  }

  /** No segment of a split contains the delimiter. */
  lemma {:induction false} SplitSegmentsHaveNoDelim(s: string)
    ensures forall i | 0 <= i < |Split(s)| :: !HasDelim(Split(s)[i])
    decreases |s|
  {
    if |s| < 2 {
    } else if s[0] == '_' && s[1] == '_' {
      SplitSegmentsHaveNoDelim(s[2..]);
      var t := Split(s[2..]);
      assert Split(s) == [""] + t;
      forall i | 0 <= i < |Split(s)| ensures !HasDelim(Split(s)[i]) {
        if i > 0 { assert Split(s)[i] == t[i - 1]; }
      }
    } else {
      SplitSegmentsHaveNoDelim(s[1..]);
      SplitHeadPrefix(s[1..]);
      var t := Split(s[1..]);
      var h := [s[0]] + t[0];
      assert Split(s) == [h] + t[1..];
      assert !HasDelim(t[0]);
      if |h| >= 2 {
        assert h[1] == t[0][0] == s[1];
        assert h[1..] == t[0];
        assert !(h[0] == '_' && h[1] == '_');
      }
      assert !HasDelim(h);
      forall i | 0 <= i < |Split(s)| ensures !HasDelim(Split(s)[i]) {
        if i > 0 { assert Split(s)[i] == t[i]; }
      }
    }
  }

  /** A string without the delimiter splits into itself alone. */
  lemma {:induction false} SplitWithoutDelim(s: string)
    requires !HasDelim(s)
    ensures Split(s) == [s]
    decreases |s|
  {
    if |s| >= 2 {
      SplitWithoutDelim(s[1..]);
      assert [s[0]] + s[1..] == s;
    }
  }

  /** A segment may be followed by the delimiter unless it ends with an underscore. */
  predicate Segment(w: string) {
    !HasDelim(w) && (w == [] || w[|w| - 1] != '_')
  }

  /** Splitting a segment followed by the delimiter yields that segment first. */
  lemma {:induction false} SplitCons(w: string, rest: string)
    requires Segment(w)
    ensures Split(w + Delim + rest) == [w] + Split(rest)
    decreases |w|
  {
    if w == [] {
      assert w + Delim + rest == Delim + rest;
      assert (Delim + rest)[2..] == rest;
    } else {
      var s := w + Delim + rest;
      var w' := w[1..];
      assert s[1..] == w' + Delim + rest;
      if |w'| >= 1 {
        assert w'[|w'| - 1] == w[|w| - 1];
        assert HasDelim(w) == ((w[0] == '_' && w[1] == '_') || HasDelim(w'));
      }
      SplitCons(w', rest);
      assert !(s[0] == '_' && s[1] == '_');
      assert [w[0]] + w' == w;
    }
  }

  /** Joining segments and splitting again gives the segments back. */
  lemma {:induction false} SplitJoin(segs: seq<string>)
    requires |segs| >= 1
    requires forall i | 0 <= i < |segs| :: !HasDelim(segs[i])
    requires forall i | 0 <= i < |segs| - 1 :: Segment(segs[i])
    ensures Split(Join(segs)) == segs
    decreases |segs|
  {
    if |segs| == 1 {
      SplitWithoutDelim(segs[0]);
    } else {
      SplitJoin(segs[1..]);
      SplitCons(segs[0], Join(segs[1..]));
    }
  }

  /** `s.split(c)` for a one-character separator. */
  function SplitOn(s: string, c: char): (r: seq<string>)
    ensures |r| >= 1
  {
    if s == [] then [""]
    else
      var t := SplitOn(s[1..], c);
      if s[0] == c then [""] + t else [[s[0]] + t[0]] + t[1..]
  }

  /** The text before the first `c` of a string that has one. */
  lemma {:induction false} SplitOnFirst(k: string, c: char, rest: string)
    requires c !in k
    ensures SplitOn(k + [c] + rest, c) == [k] + SplitOn(rest, c)
    decreases |k|
  {
    if k == [] {
      assert k + [c] + rest == [c] + rest;
      assert ([c] + rest)[1..] == rest;
    } else {
      SplitOnFirst(k[1..], c, rest);
      assert (k + [c] + rest)[1..] == k[1..] + [c] + rest;
      assert [k[0]] + k[1..] == k;
    }
  }

  /** Text without `c` in front of a string stays in front of its first field. */
  lemma {:induction false} SplitOnPrefix(k: string, rest: string, c: char)
    requires c !in k
    ensures SplitOn(k + rest, c)[0] == k + SplitOn(rest, c)[0]
    decreases |k|
  {
    if k != [] {
      SplitOnPrefix(k[1..], rest, c);
      assert (k + rest)[1..] == k[1..] + rest;
      assert [k[0]] + (k[1..] + SplitOn(rest, c)[0]) == k + SplitOn(rest, c)[0];
    } else {
      assert k + rest == rest;
    }
  }

  /** A string without `c` is a single field. */
  lemma {:induction false} SplitOnAbsent(s: string, c: char)
    requires c !in s
    ensures SplitOn(s, c) == [s]
  {
    if s != [] {
      SplitOnAbsent(s[1..], c);
      assert [s[0]] + s[1..] == s;
    }
  }

  /** `items.join(",")`, which is how an array is turned into a string. */
  function JoinComma(items: seq<string>): string {
    if items == [] then ""
    else if |items| == 1 then items[0]
    else items[0] + "," + JoinComma(items[1..])
  }

  /** ASCII lower case of one character (JavaScript's `/i` for letters). */
  function LowerAscii(c: char): char {
    if 'A' <= c <= 'Z' then (c as int + 32) as char else c
  }

  /** Case-insensitive equality for ASCII letters. */
  predicate EqualsIgnoreCase(a: string, b: string) {
    |a| == |b| && forall i | 0 <= i < |a| :: LowerAscii(a[i]) == LowerAscii(b[i])
  }

  // ---------------------------------------------------------------------------
  // Decimal indices: the keys under which `for...in` and spread enumerate
  // the characters of a string and the items of an array

  predicate IsDigit(c: char) {
    '0' <= c <= '9'
  }

  function Digit(d: nat): (c: char)
    requires d < 10
    ensures IsDigit(c)
  {
    ('0' as int + d) as char
  }

  function DigitValue(c: char): (d: nat)
    requires IsDigit(c)
    ensures d < 10 && Digit(d) == c
  {
    c as int - '0' as int
  }

  /** `String(n)`: the decimal digits of `n`, without leading zeros. */
  function Decimal(n: nat): string
    decreases n
  {
    if n < 10 then [Digit(n)] else Decimal(n / 10) + [Digit(n % 10)]
  }

  predicate AllDigits(k: string) {
    forall i | 0 <= i < |k| :: IsDigit(k[i])
  }

  /** The number a non-empty string of decimal digits denotes. */
  function DigitsValue(k: string): nat
    requires |k| >= 1 && AllDigits(k)
    decreases |k|
  {
    if |k| == 1 then DigitValue(k[0])
    else 10 * DigitsValue(k[..|k| - 1]) + DigitValue(k[|k| - 1])
  }

  /**
   * The index a property key names on a string or an array: a key that is the
   * canonical decimal form of a number (no sign, no leading zero), else none.
   */
  function ArrayIndex(k: string): Option<nat> {
    if |k| >= 1 && AllDigits(k) && (|k| == 1 || k[0] != '0') then Some(DigitsValue(k)) else None
  }

  /** A decimal is a non-empty run of digits whose first digit is not 0 unless the number is. */
  lemma {:induction false} DecimalDigits(n: nat)
    ensures |Decimal(n)| >= 1 && AllDigits(Decimal(n))
    ensures n >= 1 ==> Decimal(n)[0] != '0'
    decreases n
  {
    if n >= 10 {
      DecimalDigits(n / 10);
      var d := Decimal(n);
      assert d == Decimal(n / 10) + [Digit(n % 10)];
      forall i | 0 <= i < |d| ensures IsDigit(d[i]) {
        if i < |d| - 1 {
          assert d[i] == Decimal(n / 10)[i];
        }
      }
    }
  }

  /** The decimal of `n` is read back as the index `n`. */
  lemma {:induction false} DecimalRoundTrip(n: nat)
    ensures ArrayIndex(Decimal(n)) == Some(n)
    decreases n
  {
    DecimalDigits(n);
    if n >= 10 {
      DecimalRoundTrip(n / 10);
      DecimalDigits(n / 10);
      var d := Decimal(n);
      assert d[..|d| - 1] == Decimal(n / 10);
      assert d[|d| - 1] == Digit(n % 10);
      assert DigitsValue(Decimal(n / 10)) == n / 10;
    }
  }

  /** A key that names an index is the decimal of that index. */
  lemma {:induction false} ArrayIndexDecimal(k: string)
    requires ArrayIndex(k).Some?
    ensures Decimal(ArrayIndex(k).value) == k
    decreases |k|
  {
    if |k| >= 2 {
      var init := k[..|k| - 1];
      assert init[0] == k[0];
      assert AllDigits(init) by {
        forall i | 0 <= i < |init| ensures IsDigit(init[i]) {
          assert init[i] == k[i];
        }
      }
      ArrayIndexDecimal(init);
      DigitsPositive(init);
      var v := DigitsValue(k);
      var d := DigitValue(k[|k| - 1]);
      assert v == 10 * DigitsValue(init) + d;
      assert v / 10 == DigitsValue(init) && v % 10 == d;
      assert k == init + [k[|k| - 1]];
    } else {
      assert k == [k[0]];
    }
  }

  /** Digits that do not start with 0 denote a positive number. */
  lemma {:induction false} DigitsPositive(k: string)
    requires |k| >= 1 && AllDigits(k) && k[0] != '0'
    ensures DigitsValue(k) >= 1
    decreases |k|
  {
    if |k| >= 2 {
      var init := k[..|k| - 1];
      assert init[0] == k[0];
      assert AllDigits(init) by {
        forall i | 0 <= i < |init| ensures IsDigit(init[i]) {
          assert init[i] == k[i];
        }
      }
      DigitsPositive(init);
    } else {
      assert k[0] != Digit(0);
    }
  }

  /** Distinct indices have distinct decimals. */
  lemma DecimalInjective(a: nat, b: nat)
    requires Decimal(a) == Decimal(b)
    ensures a == b
  {
    DecimalRoundTrip(a);
    DecimalRoundTrip(b);
  }

  /** A decimal contains neither an underscore nor `=`. */
  lemma DecimalPlain(n: nat)
    ensures '_' !in Decimal(n) && '=' !in Decimal(n) && !HasDelim(Decimal(n))
  {
    DecimalDigits(n);
    NoUnderscoreNoDelim(Decimal(n));
  }

  /** Without an underscore there is no delimiter. */
  lemma {:induction false} NoUnderscoreNoDelim(s: string)
    requires '_' !in s
    ensures !HasDelim(s)
    decreases |s|
  {
    if |s| >= 2 {
      assert s[0] in s;
      assert forall c | c in s[1..] :: c in s;
      NoUnderscoreNoDelim(s[1..]);
    }
  }
}
