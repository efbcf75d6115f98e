/** The few JavaScript string operations the core relies on, written out over `seq<char>`:
    `trim`, `startsWith`, `endsWith`, `includes`, `indexOf`, `split(/\s+/)`, `join`, and the
    decimal rendering of a non-negative integer. */
module Strings {

  /** The characters `String.prototype.trim` and the regular-expression class `\s` treat as
      white space: the ECMAScript WhiteSpace and LineTerminator code points. */
  predicate IsSpace(c: char) {
    || c == ' ' || c == '\t' || c == '\n' || c == '\r' || c == '\U{B}' || c == '\U{C}'
    || c == '\U{A0}' || c == '\U{1680}' || ('\U{2000}' <= c <= '\U{200A}')
    || c == '\U{2028}' || c == '\U{2029}' || c == '\U{202F}' || c == '\U{205F}'
    || c == '\U{3000}' || c == '\U{FEFF}'
  }

  /** `r` is a contiguous piece of `s`. */
  ghost predicate IsSlice(r: string, s: string) {
    exists i, j :: 0 <= i <= j <= |s| && r == s[i..j]
  }

  lemma SliceTransitive(a: string, b: string, c: string)
    requires IsSlice(a, b) && IsSlice(b, c)
    ensures IsSlice(a, c)
  {
    var i, j :| 0 <= i <= j <= |b| && a == b[i..j];
    var k, l :| 0 <= k <= l <= |c| && b == c[k..l];
    forall m | 0 <= m < |a| ensures a[m] == c[k + i + m] {
      assert a[m] == b[i + m];
    }
    assert a == c[k + i..k + j];
  }

  predicate HasNonSpace(s: string) {
    exists i :: 0 <= i < |s| && !IsSpace(s[i])
  }

  /** Neither end of `s` is white space. */
  predicate IsTrimmed(s: string) {
    s == [] || (!IsSpace(s[0]) && !IsSpace(s[|s| - 1]))
  }

  /** The start of the run of white space that ends at `hi`, no earlier than `lo`. */
  function SpaceRunStart(s: string, lo: nat, hi: nat): (r: nat)
    requires lo <= hi <= |s|
    ensures lo <= r <= hi && (r > lo ==> !IsSpace(s[r - 1]))
    ensures forall i :: r <= i < hi ==> IsSpace(s[i])
    decreases hi
  {
    if hi == lo || !IsSpace(s[hi - 1]) then hi else SpaceRunStart(s, lo, hi - 1)
  }

  /** `String.prototype.trim`: the piece of `s` left after removing white space at both ends. */
  function Trim(s: string): (r: string)
    ensures IsTrimmed(r)
    ensures IsSlice(r, s) && |r| <= |s|
    ensures IsTrimmed(s) ==> r == s
    ensures r == [] <==> !HasNonSpace(s)
  {
    var a := SpaceRunEnd(s, 0);
    var b := SpaceRunStart(s, a, |s|);
    assert s != [] && !IsSpace(s[0]) ==> a == 0;
    assert s != [] && !IsSpace(s[|s| - 1]) ==> b == |s|;
    assert a < b ==> s[a..b][0] == s[a] && s[a..b][b - a - 1] == s[b - 1];
    s[a..b]
  }

  /** The white space before `a` and from `b` on is exactly what trimming removes. */
  lemma TrimBetween(s: string, a: nat, b: nat)
    requires a <= b <= |s|
    requires forall i :: 0 <= i < a ==> IsSpace(s[i])
    requires forall i :: b <= i < |s| ==> IsSpace(s[i])
    requires a < b ==> !IsSpace(s[a]) && !IsSpace(s[b - 1])
    ensures Trim(s) == s[a..b]
  {
    if a < b {
      SpaceRunEndIs(s, 0, a);
      SpaceRunStartIs(s, a, |s|, b);
    } else {
      SpaceRunEndIs(s, 0, |s|);
    }
  }

  lemma {:induction false} SpaceRunEndIs(s: string, from: nat, k: nat)
    requires from <= k <= |s|
    requires forall i :: from <= i < k ==> IsSpace(s[i])
    requires k < |s| ==> !IsSpace(s[k])
    ensures SpaceRunEnd(s, from) == k
    decreases k - from
  {
    if from < k { SpaceRunEndIs(s, from + 1, k); }
  }

  lemma {:induction false} SpaceRunStartIs(s: string, lo: nat, hi: nat, k: nat)
    requires lo <= k <= hi <= |s|
    requires forall i :: k <= i < hi ==> IsSpace(s[i])
    requires k > lo ==> !IsSpace(s[k - 1])
    ensures SpaceRunStart(s, lo, hi) == k
    decreases hi - k
  {
    if k < hi { SpaceRunStartIs(s, lo, hi - 1, k); }
  }


  lemma {:induction false} TrimIdempotent(s: string)
    ensures Trim(Trim(s)) == Trim(s)
  {
  }

  predicate StartsWith(s: string, prefix: string) {
    |prefix| <= |s| && s[..|prefix|] == prefix
  }

  predicate EndsWith(s: string, suffix: string) {
    |suffix| <= |s| && s[|s| - |suffix|..] == suffix
  }

  /** `String.prototype.includes`. */
  predicate Contains(s: string, sub: string) {
    exists i :: 0 <= i <= |s| - |sub| && OccursAt(s, sub, i)
  }

  predicate OccursAt(s: string, sub: string, i: int) {
    0 <= i <= |s| - |sub| && s[i..i + |sub|] == sub
  }

  /** `s.indexOf(c, from)` for a one-character needle: the first position at or after `from`
      holding `c`, or -1. */
  function IndexOf(s: string, c: char, from: nat): (r: int)
    ensures r == -1 || (from <= r < |s| && s[r] == c)
    ensures r == -1 ==> forall i :: from <= i < |s| ==> s[i] != c
    ensures r != -1 ==> forall i :: from <= i < r ==> s[i] != c
    decreases |s| - from
  {
    if from >= |s| then -1 else if s[from] == c then from else IndexOf(s, c, from + 1)
  }

  /** The first occurrence of `c` at or after `from` is at `k`. */
  lemma {:induction false} IndexOfIs(s: string, c: char, from: nat, k: nat)
    requires from <= k < |s| && s[k] == c
    requires forall i :: from <= i < k ==> s[i] != c
    ensures IndexOf(s, c, from) == k
    decreases k - from
  {
    if from < k { IndexOfIs(s, c, from + 1, k); }
  }

  predicate NoSpace(s: string) {
    forall i :: 0 <= i < |s| ==> !IsSpace(s[i])
  }

  /** The first white-space position at or after `from`, or `|s|`. */
  function NextSpace(s: string, from: nat): (r: nat)
    requires from <= |s|
    ensures from <= r <= |s| && (r < |s| ==> IsSpace(s[r]))
    ensures forall i :: from <= i < r ==> !IsSpace(s[i])
    decreases |s| - from
  {
    if from == |s| || IsSpace(s[from]) then from else NextSpace(s, from + 1)
  }

  /** The end of the run of white space starting at `from`. */
  function SpaceRunEnd(s: string, from: nat): (r: nat)
    requires from <= |s|
    ensures from <= r <= |s| && (r < |s| ==> !IsSpace(s[r]))
    ensures forall i :: from <= i < r ==> IsSpace(s[i])
    decreases |s| - from
  {
    if from == |s| || !IsSpace(s[from]) then from else SpaceRunEnd(s, from + 1)
  }

  /** The non-space characters of `s`, in order. */
  function NonSpaceChars(s: string): string {
    if s == [] then [] else (if IsSpace(s[0]) then [] else [s[0]]) + NonSpaceChars(s[1..])
  }

  lemma {:induction false} NonSpaceCharsAppend(a: string, b: string)
    ensures NonSpaceChars(a + b) == NonSpaceChars(a) + NonSpaceChars(b)
  {
    if a != [] {
      assert (a + b)[0] == a[0];
      assert (a + b)[1..] == a[1..] + b;
      NonSpaceCharsAppend(a[1..], b);
    } else {
      assert a + b == b;
    }
  }

  lemma {:induction false} NonSpaceCharsOfNoSpace(s: string)
    requires NoSpace(s)
    ensures NonSpaceChars(s) == s
  {
    if s != [] { NonSpaceCharsOfNoSpace(s[1..]); }
  }

  lemma {:induction false} NonSpaceCharsOfSpaces(s: string)
    requires forall i :: 0 <= i < |s| ==> IsSpace(s[i])
    ensures NonSpaceChars(s) == []
  {
    if s != [] { NonSpaceCharsOfSpaces(s[1..]); }
  }

  function Concat(parts: seq<string>): string {
    if parts == [] then [] else parts[0] + Concat(parts[1..])
  }

  /** The pieces of `s.split(/\s+/)`: every maximal run of white space is a separator, so a
      leading (trailing) run yields an empty first (last) piece. The pieces hold no white
      space, and together they are exactly the non-space characters of `s`. */
  function SplitOnSpace(s: string): (parts: seq<string>)
    ensures |parts| >= 1
    ensures forall k :: 0 <= k < |parts| ==> NoSpace(parts[k])
    decreases |s|
  {
    var i := NextSpace(s, 0);
    if i == |s| then [s] else [s[..i]] + SplitOnSpace(s[SpaceRunEnd(s, i)..])
  }

  /** The split cuts at the first run of white space and drops the whole run: a word, a
      non-empty gap and a rest that does not start with white space split into the word and
      the pieces of the rest. */
  lemma SplitOnSpaceCuts(word: string, gap: string, rest: string)
    requires NoSpace(word) && gap != [] && forall i :: 0 <= i < |gap| ==> IsSpace(gap[i])
    requires rest == [] || !IsSpace(rest[0])
    ensures SplitOnSpace(word + gap + rest) == [word] + SplitOnSpace(rest)
  {
    var s := word + gap + rest;
    var i := NextSpace(s, 0);
    assert s[|word|] == gap[0];
    assert forall k :: 0 <= k < |word| ==> s[k] == word[k];
    assert i == |word|;
    var j := SpaceRunEnd(s, i);
    assert forall k :: |word| <= k < |word| + |gap| ==> s[k] == gap[k - |word|];
    assert rest != [] ==> s[|word| + |gap|] == rest[0];
    assert j == |word| + |gap|;
    assert s[..i] == word && s[j..] == rest;
  }

  lemma {:induction false} NonSpaceCharsSkipGap(s: string, i: nat, j: nat)
    requires i <= j <= |s|
    requires forall k :: 0 <= k < i ==> !IsSpace(s[k])
    requires forall k :: i <= k < j ==> IsSpace(s[k])
    ensures NonSpaceChars(s) == s[..i] + NonSpaceChars(s[j..])
  {
    var word, gap, tail := s[..i], s[i..j], s[j..];
    assert s == word + (gap + tail);
    NonSpaceCharsAppend(word, gap + tail);
    NonSpaceCharsAppend(gap, tail);
    NonSpaceCharsOfNoSpace(word);
    NonSpaceCharsOfSpaces(gap);
  }

  /** Together the pieces of the split are exactly the non-space characters of `s`. */
  lemma {:induction false} SplitOnSpaceKeepsWords(s: string)
    ensures Concat(SplitOnSpace(s)) == NonSpaceChars(s)
    decreases |s|
  {
    var i := NextSpace(s, 0);
    if i == |s| {
      NonSpaceCharsOfNoSpace(s);
    } else {
      var j := SpaceRunEnd(s, i);
      SplitOnSpaceKeepsWords(s[j..]);
      var parts := SplitOnSpace(s);
      assert parts == [s[..i]] + SplitOnSpace(s[j..]);
      assert Concat(parts) == s[..i] + Concat(SplitOnSpace(s[j..]));
      NonSpaceCharsSkipGap(s, i, j);
    }
  }

  /** On trimmed text that is not empty, no piece of the split is empty: the pieces are the
      words. */
  lemma {:induction false} SplitTrimmedWords(s: string)
    requires IsTrimmed(s) && s != []
    ensures forall k :: 0 <= k < |SplitOnSpace(s)| ==> SplitOnSpace(s)[k] != []
    decreases |s|
  {
    var i := NextSpace(s, 0);
    if i < |s| {
      var j := SpaceRunEnd(s, i);
      assert j < |s|;
      assert IsTrimmed(s[j..]);
      SplitTrimmedWords(s[j..]);
      assert SplitOnSpace(s) == [s[..i]] + SplitOnSpace(s[j..]);
    }
  }

  /** `xs.join(sep)`. */
  function Join(xs: seq<string>, sep: string): (r: string)
    ensures xs == [] ==> r == []
    ensures |xs| == 1 ==> r == xs[0]
    ensures xs != [] ==> StartsWith(r, xs[0])
  {
    if xs == [] then [] else if |xs| == 1 then xs[0] else xs[0] + sep + Join(xs[1..], sep)
  }

  function DigitChar(d: nat): char
    requires d < 10
  {
    "0123456789"[d]
  }

  /** The decimal rendering of `n` (`String(n)` for a non-negative integer). */
  function NatToString(n: nat): (r: string)
    ensures |r| >= 1
    ensures forall i :: 0 <= i < |r| ==> '0' <= r[i] <= '9'
  {
    if n < 10 then [DigitChar(n)] else NatToString(n / 10) + [DigitChar(n % 10)]
  }
}
