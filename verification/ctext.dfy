/**
  Text notions shared by the two scanners of stinfo: C strings, brace balance,
  indentation runs, layout characters and substring search.

  A character of the model stands for one byte of the header; no UTF-8
  decoding takes place anywhere in the program.
 */
module CText {
  import opened Wrappers

  /** The text a C string routine sees: everything before the first NUL. */
  function CStr(s: string): (t: string)
    ensures t <= s
    ensures '\0' !in t
    ensures |t| < |s| ==> s[|t|] == '\0'
    ensures '\0' !in s ==> t == s
  {
    if |s| == 0 || s[0] == '\0' then "" else [s[0]] + CStr(s[1..])
  }

  /** A scan that stopped at the end of `s` or at a NUL has read exactly `CStr(s)`. */
  lemma CStrEnd(s: string, i: int)
    requires 0 <= i <= |CStr(s)|
    requires i == |s| || s[i] == '\0'
    ensures i == |CStr(s)| && s[..i] == CStr(s)
  {
  }

  /** Number of occurrences of `c` in `s`. */
  function Count(s: string, c: char): nat
  {
    if |s| == 0 then 0
    else Count(s[..|s| - 1], c) + (if s[|s| - 1] == c then 1 else 0)
  }

  /** How a single character moves the brace counters of both scanners. */
  function Delta(c: char): int
  {
    if c == '{' then 1 else if c == '}' then -1 else 0
  }

  /** Opening braces minus closing braces, with no regard for quotes. */
  function Balance(s: string): int
  {
    Count(s, '{') - Count(s, '}')
  }

  lemma BalanceSnoc(s: string, c: char)
    ensures Balance(s + [c]) == Balance(s) + Delta(c)
  {
    assert (s + [c])[..|s|] == s;
  }

  lemma BalancePrefix(s: string, k: int)
    requires 0 <= k < |s|
    ensures Balance(s[..k + 1]) == Balance(s[..k]) + Delta(s[k])
  {
    assert s[..k + 1] == s[..k] + [s[k]];
    BalanceSnoc(s[..k], s[k]);
  }

  lemma {:induction false} BalanceAppend(a: string, b: string)
    ensures Balance(a + b) == Balance(a) + Balance(b)
    decreases |b|
  {
    if |b| == 0 {
      assert a + b == a;
    } else {
      var init, c := b[..|b| - 1], b[|b| - 1];
      assert b == init + [c];
      assert a + b == (a + init) + [c];
      BalanceAppend(a, init);
      BalanceSnoc(a + init, c);
      BalanceSnoc(init, c);
    }
  }

  /** Text without braces leaves the brace count where it was. */
  lemma {:induction false} BalanceBraceFree(w: string)
    requires forall i :: 0 <= i < |w| ==> w[i] != '{' && w[i] != '}'
    ensures Balance(w) == 0
  {
    if |w| > 0 {
      var init := w[..|w| - 1];
      assert w == init + [w[|w| - 1]];
      BalanceBraceFree(init);
      BalanceSnoc(init, w[|w| - 1]);
    }
  }

  /**
    The run printed by `for (j = 0; j < n; j++) printf("   ")`: three spaces
    per level, and nothing at all when the level is zero or negative.
   */
  function Indent(n: int): (r: string)
    ensures |r| == 3 * (if n < 0 then 0 else n)
    ensures forall i :: 0 <= i < |r| ==> r[i] == ' '
    decreases n
  {
    if n <= 0 then "" else Indent(n - 1) + "   "
  }

  /** The only characters the scanners ever insert. */
  predicate IsLayout(c: char)
  {
    c == ' ' || c == '\n'
  }

  /** `s` with every space and newline removed. */
  function Strip(s: string): (r: string)
    ensures forall i :: 0 <= i < |r| ==> !IsLayout(r[i])
    ensures |r| <= |s|
  {
    if |s| == 0 then ""
    else (if IsLayout(s[0]) then "" else [s[0]]) + Strip(s[1..])
  }

  lemma {:induction false} StripAppend(a: string, b: string)
    ensures Strip(a + b) == Strip(a) + Strip(b)
  {
    if |a| == 0 {
      assert a + b == b;
    } else {
      assert (a + b)[1..] == a[1..] + b;
      StripAppend(a[1..], b);
    }
  }

  lemma {:induction false} StripLayout(w: string)
    requires forall i :: 0 <= i < |w| ==> IsLayout(w[i])
    ensures Strip(w) == ""
  {
    if |w| > 0 {
      StripLayout(w[1..]);
    }
  }

  /**
    `b` is `a` with layout characters inserted: `pos` sends each character of
    `a` to an equal character of `b`, strictly increasingly, and every
    position of `b` not hit by `pos` holds a space or a newline.
   */
  ghost predicate Padding(a: string, b: string, pos: seq<int>)
  {
    && |pos| == |a|
    && (forall k :: 0 <= k < |pos| ==> 0 <= pos[k] < |b| && b[pos[k]] == a[k])
    && (forall k, l :: 0 <= k < l < |pos| ==> pos[k] < pos[l])
    && (forall j :: 0 <= j < |b| && j !in pos ==> IsLayout(b[j]))
  }

  /** Every character of `a` survives in `b`, in order, and `b` adds only layout. */
  ghost predicate Padded(a: string, b: string)
  {
    exists pos :: Padding(a, b, pos)
  }

  lemma PaddedSame(s: string)
    ensures Padded(s, s)
  {
    var pos := seq(|s|, k requires 0 <= k < |s| => k);
    forall j | 0 <= j < |s|
      ensures j in pos
    {
      assert pos[j] == j;
    }
    assert Padding(s, s, pos);
  }

  /** Layout appended after `x`. */
  lemma PaddedLayoutAfter(x: string, w: string)
    requires forall i :: 0 <= i < |w| ==> IsLayout(w[i])
    ensures Padded(x, x + w)
  {
    var pos := seq(|x|, k requires 0 <= k < |x| => k);
    forall j | 0 <= j < |x|
      ensures j in pos
    {
      assert pos[j] == j;
    }
    assert Padding(x, x + w, pos);
  }

  /** Layout put in front of `x`. */
  lemma PaddedLayoutBefore(w: string, x: string)
    requires forall i :: 0 <= i < |w| ==> IsLayout(w[i])
    ensures Padded(x, w + x)
  {
    var pos := seq(|x|, k requires 0 <= k < |x| => k + |w|);
    forall j | |w| <= j < |w| + |x|
      ensures j in pos
    {
      assert pos[j - |w|] == j;
    }
    assert Padding(x, w + x, pos);
  }

  /** A newline followed by an indentation run holds only layout. */
  lemma NewlineIndent(n: int)
    ensures forall i :: 0 <= i < |"\n" + Indent(n)| ==> IsLayout(("\n" + Indent(n))[i])
  {
    var w := "\n" + Indent(n);
    forall i | 0 <= i < |w|
      ensures IsLayout(w[i])
    {
      if i > 0 {
        assert w[i] == Indent(n)[i - 1];
      }
    }
  }

  lemma PaddedLayout(w: string)
    requires forall i :: 0 <= i < |w| ==> IsLayout(w[i])
    ensures Padded("", w)
  {
    assert Padding("", w, []);
  }

  lemma PaddedAppend(a: string, b: string, c: string, d: string)
    requires Padded(a, b) && Padded(c, d)
    ensures Padded(a + c, b + d)
  {
    var p :| Padding(a, b, p);
    var q :| Padding(c, d, q);
    var r := p + Shift(q, |b|);
    AppendHits(a, b, p, c, d, q);
    AppendIncreasing(b, p, q);
    AppendGaps(b, p, d, q);
    assert Padding(a + c, b + d, r);
  }

  /** Every position of `q` moved right by `n`. */
  function Shift(q: seq<int>, n: int): (r: seq<int>)
    ensures |r| == |q|
    ensures forall k :: 0 <= k < |q| ==> r[k] == q[k] + n
  {
    seq(|q|, k requires 0 <= k < |q| => q[k] + n)
  }

  lemma AppendHits(a: string, b: string, p: seq<int>, c: string, d: string, q: seq<int>)
    requires |p| == |a| && |q| == |c|
    requires forall k :: 0 <= k < |p| ==> 0 <= p[k] < |b| && b[p[k]] == a[k]
    requires forall k :: 0 <= k < |q| ==> 0 <= q[k] < |d| && d[q[k]] == c[k]
    ensures forall k :: 0 <= k < |p| + |q| ==>
      0 <= (p + Shift(q, |b|))[k] < |b + d| && (b + d)[(p + Shift(q, |b|))[k]] == (a + c)[k]
  {
    var r := p + Shift(q, |b|);
    forall k | 0 <= k < |r|
      ensures 0 <= r[k] < |b + d| && (b + d)[r[k]] == (a + c)[k]
    {
      if k < |p| {
        assert r[k] == p[k];
      } else {
        assert r[k] == q[k - |p|] + |b|;
      }
    }
  }

  lemma AppendIncreasing(b: string, p: seq<int>, q: seq<int>)
    requires forall k :: 0 <= k < |p| ==> p[k] < |b|
    requires forall k :: 0 <= k < |q| ==> 0 <= q[k]
    requires forall k, l :: 0 <= k < l < |p| ==> p[k] < p[l]
    requires forall k, l :: 0 <= k < l < |q| ==> q[k] < q[l]
    ensures forall k, l :: 0 <= k < l < |p| + |q| ==>
      (p + Shift(q, |b|))[k] < (p + Shift(q, |b|))[l]
  {
    var r := p + Shift(q, |b|);
    forall k, l | 0 <= k < l < |r|
      ensures r[k] < r[l]
    {
      if l < |p| {
        assert r[k] == p[k] && r[l] == p[l];
      } else if k < |p| {
        assert r[k] == p[k] && r[l] == q[l - |p|] + |b|;
      } else {
        assert r[k] == q[k - |p|] + |b| && r[l] == q[l - |p|] + |b|;
      }
    }
  }

  lemma AppendGaps(b: string, p: seq<int>, d: string, q: seq<int>)
    requires forall j :: 0 <= j < |b| && j !in p ==> IsLayout(b[j])
    requires forall j :: 0 <= j < |d| && j !in q ==> IsLayout(d[j])
    ensures forall j :: 0 <= j < |b + d| && j !in p + Shift(q, |b|) ==> IsLayout((b + d)[j])
  {
    var q' := Shift(q, |b|);
    forall j | 0 <= j < |b + d| && j !in p + q'
      ensures IsLayout((b + d)[j])
    {
      assert j !in p && j !in q';
      if j >= |b| {
        forall k | 0 <= k < |q|
          ensures q[k] != j - |b|
        {
          assert q'[k] == q[k] + |b|;
        }
        assert j - |b| !in q;
      }
    }
  }

  /** `needle` starts at index `i` of `hay`. */
  predicate OccursAt(hay: string, needle: string, i: nat)
  {
    i + |needle| <= |hay| && hay[i..i + |needle|] == needle
  }

  function FindFrom(hay: string, needle: string, i: nat): (r: Option<nat>)
    requires i <= |hay|
    ensures r.Some? ==> i <= r.value && OccursAt(hay, needle, r.value)
    ensures r.Some? ==> forall j :: i <= j < r.value ==> !OccursAt(hay, needle, j)
    ensures r.None? ==> forall j :: i <= j <= |hay| ==> !OccursAt(hay, needle, j)
    decreases |hay| - i
  {
    if OccursAt(hay, needle, i) then Some(i)
    else if i == |hay| then None
    else FindFrom(hay, needle, i + 1)
  }

  /** `strstr`: the first index at which `needle` occurs in `hay`, if any. */
  function Find(hay: string, needle: string): (r: Option<nat>)
    ensures r.Some? ==> OccursAt(hay, needle, r.value)
    ensures r.Some? ==> forall j :: 0 <= j < r.value ==> !OccursAt(hay, needle, j)
    ensures r.None? ==> forall j :: 0 <= j <= |hay| ==> !OccursAt(hay, needle, j)
  {
    FindFrom(hay, needle, 0)
  }
}
