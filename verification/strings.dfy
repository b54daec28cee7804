/**
  Character-level string operations with the semantics of the JavaScript
  built-ins the two wizards rely on: `String.prototype.trim`,
  `String.prototype.split` with a one-character separator, and
  `Array.prototype.join`.
 */
module Strings {

  /** The characters `trim` removes: the WhiteSpace and LineTerminator code
      points of ECMAScript (TAB, LF, VT, FF, CR, SPACE, NBSP, the Zs
      category, LS, PS and the byte-order mark). */
  predicate IsWs(c: char) {
    var n := c as int;
    || n == 0x09 || n == 0x0A || n == 0x0B || n == 0x0C || n == 0x0D
    || n == 0x20 || n == 0xA0 || n == 0x1680
    || (0x2000 <= n <= 0x200A)
    || n == 0x2028 || n == 0x2029 || n == 0x202F || n == 0x205F
    || n == 0x3000 || n == 0xFEFF
  }

  /** Every character of `s` is whitespace. */
  predicate AllWs(s: string) {
    s == [] || (IsWs(s[0]) && AllWs(s[1..]))
  }

  lemma {:induction false} AllWsAppend(a: string, b: string)
    ensures AllWs(a + b) <==> AllWs(a) && AllWs(b)
    decreases |a|
  {
    if a != [] {
      assert (a + b)[1..] == a[1..] + b;
      AllWsAppend(a[1..], b);
    } else {
      assert a + b == b;
    }
  }

  lemma {:induction false} AllWsIndex(s: string)
    ensures AllWs(s) <==> forall i :: 0 <= i < |s| ==> IsWs(s[i])
    decreases |s|
  {
    if s != [] {
      AllWsIndex(s[1..]);
      assert forall i :: 1 <= i < |s| ==> s[i] == s[1..][i - 1];
    }
  }

  /** Neither end of `s` is whitespace. */
  predicate IsTrimmed(s: string) {
    s == [] || (!IsWs(s[0]) && !IsWs(s[|s| - 1]))
  }

  /* ---------------------------------------------------------------- trim */

  /** Drops the leading whitespace: the result is a suffix of `s`, what was
      dropped is whitespace, and what is left does not start with any. */
  function TrimStart(s: string): (r: string)
    ensures |r| <= |s| && r == s[|s| - |r|..]
    ensures AllWs(s[..|s| - |r|])
    ensures r == [] || !IsWs(r[0])
  {
    if |s| > 0 && IsWs(s[0]) then
      var r := TrimStart(s[1..]);
      TrimStartStep(s, r);
      r
    else
      s
  }

  /** Drops the trailing whitespace: the result is a prefix of `s`, what was
      dropped is whitespace, and what is left does not end with any. */
  function TrimEnd(s: string): (r: string)
    ensures |r| <= |s| && r == s[..|r|]
    ensures AllWs(s[|r|..])
    ensures r == [] || !IsWs(r[|r| - 1])
  {
    if |s| > 0 && IsWs(s[|s| - 1]) then
      var r := TrimEnd(s[..|s| - 1]);
      InitSlices(s, |r|);
      AllWsAppend(s[..|s| - 1][|r|..], [s[|s| - 1]]);
      AllWsSingle(s[|s| - 1]);
      r
    else
      s
  }

  /** The recursive case of TrimStart: a suffix of `s[1..]` preceded by
      whitespace is a suffix of `s` preceded by whitespace. */
  lemma {:induction false} TrimStartStep(s: string, r: string)
    requires s != [] && IsWs(s[0]) && |r| < |s|
    requires r == s[1..][|s| - 1 - |r|..] && AllWs(s[1..][..|s| - 1 - |r|])
    ensures r == s[|s| - |r|..] && AllWs(s[..|s| - |r|])
  {
    TailSlices(s, |s| - 1 - |r|);
  }

  /** How the slices of `s[1..]` sit inside `s`. */
  lemma {:induction false} TailSlices(s: string, n: nat)
    requires n < |s|
    ensures s[1..][n..] == s[n + 1..]
    ensures s[..n + 1][1..] == s[1..][..n]
  {
  }

  /** How the slices of `s` without its last character sit inside `s`. */
  lemma {:induction false} InitSlices(s: string, n: nat)
    requires n < |s|
    ensures s[..|s| - 1][..n] == s[..n]
    ensures s[n..] == s[..|s| - 1][n..] + [s[|s| - 1]]
  {
  }

  lemma {:induction false} AllWsSingle(c: char)
    ensures AllWs([c]) <==> IsWs(c)
  {
    assert [c][1..] == [];
  }

  /** `s.trim()`: whitespace removed from both ends. TrimParts and
      TrimUnique below pin the result down exactly. */
  function Trim(s: string): (r: string)
    ensures IsTrimmed(r)
    ensures |r| <= |s|
  {
    var t := TrimStart(s);
    var r := TrimEnd(t);
    assert r == [] || r[0] == t[0];
    r
  }

  lemma {:induction false} TrimStartSkipsWs(a: string, m: string)
    requires AllWs(a)
    requires m == [] || !IsWs(m[0])
    ensures TrimStart(a + m) == m
    decreases |a|
  {
    if a == [] {
      assert a + m == m;
    } else {
      assert (a + m)[1..] == a[1..] + m;
      TrimStartSkipsWs(a[1..], m);
    }
  }

  lemma {:induction false} TrimEndSkipsWs(m: string, b: string)
    requires AllWs(b)
    requires m == [] || !IsWs(m[|m| - 1])
    ensures TrimEnd(m + b) == m
    decreases |b|
  {
    if b == [] {
      assert m + b == m;
    } else {
      var b' := b[..|b| - 1];
      assert b == b' + [b[|b| - 1]];
      AllWsAppend(b', [b[|b| - 1]]);
      assert (m + b)[..|m + b| - 1] == m + b';
      TrimEndSkipsWs(m, b');
    }
  }

  /** The converse of Trim's contract: whenever `s` is a trimmed string with
      whitespace around it, `Trim` returns exactly that string. */
  lemma {:induction false} TrimUnique(a: string, m: string, b: string)
    requires AllWs(a) && AllWs(b) && IsTrimmed(m)
    ensures Trim(a + m + b) == m
  {
    if m == [] {
      assert a + m + b == (a + b) + [];
      AllWsAppend(a, b);
      TrimStartSkipsWs(a + b, []);
    } else {
      assert a + m + b == a + (m + b);
      TrimStartSkipsWs(a, m + b);
      TrimEndSkipsWs(m, b);
    }
  }

  lemma {:induction false} TrimIdempotent(s: string)
    ensures Trim(Trim(s)) == Trim(s)
  {
    var m := Trim(s);
    assert [] + m + [] == m;
    TrimUnique([], m, []);
  }

  /** A string trims to nothing exactly when it is all whitespace. */
  lemma {:induction false} TrimEmptyIff(s: string)
    ensures Trim(s) == [] <==> AllWs(s)
  {
    if AllWs(s) {
      assert s + [] + [] == s;
      TrimUnique(s, [], []);
    } else {
      TrimNonEmpty(s);
    }
  }

  /** A string that is not all whitespace keeps something when trimmed. */
  lemma {:induction false} TrimNonEmpty(s: string)
    requires !AllWs(s)
    ensures Trim(s) != []
  {
    var a, b := TrimParts(s);
    if Trim(s) == [] {
      assert a + [] + b == a + b;
      AllWsAppend(a, b);
    }
  }


  /** Names the whitespace Trim removes on either side of its result. */
  lemma {:induction false} TrimParts(s: string) returns (a: string, b: string)
    ensures AllWs(a) && AllWs(b) && s == a + Trim(s) + b
  {
    var t := TrimStart(s);
    var m := TrimEnd(t);
    a, b := s[..|s| - |t|], t[|m|..];
    TakeDrop(s, |s| - |t|);
    TakeDrop(t, |m|);
    ConcatAssoc3(a, m, b);
  }

  lemma {:induction false} TakeDrop<T>(s: seq<T>, k: nat)
    requires k <= |s|
    ensures s[..k] + s[k..] == s
  {
  }

  /* ----------------------------------------------- sequence bookkeeping */

  lemma {:induction false} ConcatAssoc3<T>(a: seq<T>, m: seq<T>, b: seq<T>)
    ensures a + m + b == a + (m + b)
  {
  }


  lemma {:induction false} HeadTail<T>(x: seq<T>)
    requires x != []
    ensures x == [x[0]] + x[1..]
  {
  }

  lemma {:induction false} AppendHeadTail<T>(x: seq<T>, y: seq<T>)
    requires x != []
    ensures x + y == [x[0]] + (x[1..] + y)
  {
  }

  /** Trimming never introduces a character. */
  lemma {:induction false} TrimKeepsAbsent(s: string, c: char)
    ensures c !in s ==> c !in Trim(s)
  {
    var a, b := TrimParts(s);
  }

  /** A non-whitespace character does not occur in an all-whitespace string. */
  lemma {:induction false} AllWsExcludes(s: string, c: char)
    requires AllWs(s) && !IsWs(c)
    ensures c !in s
    decreases |s|
  {
    if s != [] {
      AllWsExcludes(s[1..], c);
      assert s == [s[0]] + s[1..];
    }
  }

  /** Whitespace put in front of a string does not change its trim. */
  lemma {:induction false} TrimIgnoresLeadingWs(w: string, s: string)
    requires AllWs(w)
    ensures Trim(w + s) == Trim(s)
  {
    var m := Trim(s);
    var a, b := TrimParts(s);
    AllWsAppend(w, a);
    ConcatAssoc3(w + a, m, b);
    ConcatAssoc3(w, a, m + b);
    ConcatAssoc3(a, m, b);
    TrimUnique(w + a, m, b);
  }


  /* ---------------------------------------------------------- split, join */

  /** The summed length of the pieces. */
  function TotalLength(xs: seq<string>): nat
    decreases |xs|
  {
    if xs == [] then 0 else |xs[0]| + TotalLength(xs[1..])
  }

  /** `xs.join(sep)`. */
  function Join(xs: seq<string>, sep: string): (r: string)
    ensures xs == [] ==> r == []
    ensures xs != [] ==> xs[0] <= r
    ensures xs != [] ==> |r| == TotalLength(xs) + (|xs| - 1) * |sep|
  {
    if |xs| == 0 then []
    else if |xs| == 1 then xs[0]
    else xs[0] + sep + Join(xs[1..], sep)
  }

  /** `s.split(d)`: the pieces of `s` between occurrences of `d`, in order.
      There is always at least one piece, no piece contains `d`, and joining
      the pieces with `d` gives back `s`. */
  function Split(s: string, d: char): (r: seq<string>)
    ensures |r| >= 1
    ensures forall i :: 0 <= i < |r| ==> d !in r[i]
    ensures Join(r, [d]) == s
  {
    if s == [] then
      [[]]
    else
      var rest := Split(s[1..], d);
      if s[0] == d then
        assert ([[]] + rest)[1..] == rest;
        [[]] + rest
      else
        var r := [[s[0]] + rest[0]] + rest[1..];
        assert r[1..] == rest[1..];
        assert s == [s[0]] + s[1..];
        r
  }

  /** A string without the separator is a single piece. */
  lemma {:induction false} SplitNoSeparator(s: string, d: char)
    requires d !in s
    ensures Split(s, d) == [s]
    decreases |s|
  {
    if s != [] {
      SplitNoSeparator(s[1..], d);
      assert [s[0]] + s[1..] == s;
    }
  }

  /** Putting a separator-free prefix in front of a string extends its first
      piece and leaves the others alone. */
  lemma {:induction false} SplitPrefix(w: string, s: string, d: char)
    requires d !in w
    ensures Split(w + s, d) == [w + Split(s, d)[0]] + Split(s, d)[1..]
    decreases |w|
  {
    var r := Split(s, d);
    if w == [] {
      assert [] + s == s;
      assert [] + r[0] == r[0];
      HeadTail(r);
    } else {
      AppendHeadTail(w, s);
      SplitCons(w[0], w[1..] + s, d);
      SplitPrefix(w[1..], s, d);
      AppendHeadTail(w, r[0]);
    }
  }

  /** Splitting distributes over a separator: the pieces of `a + d + b` are
      the pieces of `a` followed by the pieces of `b`. */
  lemma {:induction false} SplitAppend(a: string, b: string, d: char)
    ensures Split(a + [d] + b, d) == Split(a, d) + Split(b, d)
    decreases |a|
  {
    if a == [] {
      SplitCons(d, b, d);
      assert a + [d] + b == [d] + b;
    } else {
      var x := a[1..] + [d] + b;
      ConsAppend(a, d, b);
      SplitCons(a[0], x, d);
      SplitCons(a[0], a[1..], d);
      SplitAppend(a[1..], b, d);
      ConsSplits(a[0], Split(a[1..], d), Split(b, d), d);
    }
  }

  /** Split unfolded on a non-empty string. */
  lemma {:induction false} SplitCons(c: char, x: string, d: char)
    ensures Split([c] + x, d) ==
      if c == d then [[]] + Split(x, d) else [[c] + Split(x, d)[0]] + Split(x, d)[1..]
  {
    assert ([c] + x)[1..] == x;
  }

  lemma {:induction false} ConsAppend(a: string, d: char, b: string)
    requires a != []
    ensures a + [d] + b == [a[0]] + (a[1..] + [d] + b)
  {
  }

  lemma {:induction false} ConsSplits(c: char, ra: seq<string>, rb: seq<string>, d: char)
    requires |ra| >= 1
    ensures (if c == d then [[]] + (ra + rb) else [[c] + (ra + rb)[0]] + (ra + rb)[1..])
         == (if c == d then [[]] + ra else [[c] + ra[0]] + ra[1..]) + rb
  {
    if c != d {
      assert (ra + rb)[1..] == ra[1..] + rb;
    }
  }

  /** The inverse of Split's reassembly: joining separator-free pieces with
      the separator and splitting again gives back the pieces. */
  lemma {:induction false} SplitJoin(ps: seq<string>, d: char)
    requires |ps| >= 1
    requires forall i :: 0 <= i < |ps| ==> d !in ps[i]
    ensures Split(Join(ps, [d]), d) == ps
    decreases |ps|
  {
    if |ps| == 1 {
      SplitNoSeparator(ps[0], d);
    } else {
      SplitJoin(ps[1..], d);
      SplitNoSeparator(ps[0], d);
      SplitAppend(ps[0], Join(ps[1..], [d]), d);
      assert [ps[0]] + ps[1..] == ps;
    }
  }
}
