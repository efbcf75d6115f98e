/** The content script's clean-up of the model's answer (`cleanMarkdownFormatting`): a code
    fence around the whole answer, or a single pair of backticks around it, is removed. */
module MarkdownCleanup {
  import opened Strings

  const Fence := "```"

  /** Only the first and the last character of `c` are backticks, and there are two of them. */
  predicate SingleWrapped(c: string) {
    && |c| >= 2 && c[0] == '`' && c[|c| - 1] == '`'
    && forall i :: 0 < i < |c| - 1 ==> c[i] != '`'
  }

  /** The fenced branch before its final trim: everything after the first line break (all of
      `t` when there is none), less one trailing fence. */
  function Unfence(t: string): (r: string)
    ensures IsSlice(r, t) && |r| <= |t|
  {
    var nl := IndexOf(t, '\n', 0);
    var body := if nl != -1 then t[nl + 1..] else t;
    var inner := if EndsWith(body, Fence) then body[..|body| - 3] else body;
    assert inner == t[|t| - |body|..|t| - |body| + |inner|];
    inner
  }

  /** The fenced branch: drop everything up to and including the first line break (when there
      is one), then one trailing fence, then trim. */
  function StripFence(t: string): (r: string)
    ensures IsSlice(r, t) && IsTrimmed(r) && |r| <= |t|
  {
    var inner := Unfence(t);
    SliceTransitive(Trim(inner), inner, t);
    Trim(inner)
  }

  /** The single-backtick test as the source writes it: starts with a backtick, ends with one,
      and the next backtick after position 0 is the last character. */
  predicate InlineTest(c: string) {
    StartsWith(c, "`") && EndsWith(c, "`") && IndexOf(c, '`', 1) == |c| - 1
  }

  lemma InlineTestMeansSingleWrapped(c: string)
    ensures InlineTest(c) <==> SingleWrapped(c)
  {
    if SingleWrapped(c) {
      assert c[..1] == "`" && c[|c| - 1..] == "`";
    }
    if InlineTest(c) {
      assert c[0] == c[..1][0];
      assert c[|c| - 1] == c[|c| - 1..][0];
    }
  }

  /** Everything `cleanMarkdownFormatting` does after its first trim. */
  function CleanTrimmed(t: string): (r: string)
    ensures |r| <= |t|
  {
    var c := if StartsWith(t, Fence) then StripFence(t) else t;
    if InlineTest(c) then c[1..|c| - 1] else c
  }

  /** `cleanMarkdownFormatting(text)`. */
  function CleanMarkdownFormatting(text: string): (r: string)
    ensures |r| <= |Trim(text)|
  {
    CleanTrimmed(Trim(text))
  }

  /** The answer is always one contiguous piece of the trimmed input. */
  lemma CleanIsSliceOfTrimmed(text: string)
    ensures IsSlice(CleanMarkdownFormatting(text), Trim(text))
  {
    CleanTrimmedIsSlice(Trim(text));
  }

  lemma CleanTrimmedIsSlice(t: string)
    ensures IsSlice(CleanTrimmed(t), t)
  {
    var c := if StartsWith(t, Fence) then StripFence(t) else t;
    assert IsSlice(c, t) by {
      if !StartsWith(t, Fence) { assert c == t[0..|t|]; }
    }
    if InlineTest(c) {
      assert IsSlice(c[1..|c| - 1], c);
      SliceTransitive(c[1..|c| - 1], c, t);
    }
  }

  /** A trimmed answer that does not start with a backtick comes back as it is. */
  lemma CleanPlainIsTrim(text: string)
    requires Trim(text) == [] || Trim(text)[0] != '`'
    ensures CleanMarkdownFormatting(text) == Trim(text)
  {
    CleanTrimmedPlain(Trim(text));
  }

  lemma CleanTrimmedPlain(t: string)
    requires t == [] || t[0] != '`'
    ensures CleanTrimmed(t) == t
  {
    assert !StartsWith(t, Fence) by {
      if |t| >= 3 { assert t[..3][0] == t[0]; }
    }
    assert !StartsWith(t, "`") by {
      if |t| >= 1 { assert t[..1][0] == t[0]; }
    }
  }

  /** Outside the fenced case, the pair of backticks is removed exactly when those two are
      the only backticks; otherwise the trimmed answer is returned unchanged. */
  lemma CleanInlineBackticks(text: string)
    requires !StartsWith(Trim(text), Fence)
    ensures var t := Trim(text);
      CleanMarkdownFormatting(text) == if SingleWrapped(t) then t[1..|t| - 1] else t
  {
    InlineTestMeansSingleWrapped(Trim(text));
  }

  /** A fence with no line break keeps its opening backticks (unless it is nothing but one
      fence followed by at most two more characters that the trailing-fence rule eats). */
  lemma CleanFenceWithoutNewline(text: string)
    requires StartsWith(Trim(text), Fence)
    requires forall i :: 0 <= i < |Trim(text)| ==> Trim(text)[i] != '\n'
    requires |Trim(text)| >= 6 || !EndsWith(Trim(text), Fence)
    ensures StartsWith(CleanMarkdownFormatting(text), Fence)
  {
    FenceWithoutNewlineKept(Trim(text));
  }

  lemma FenceWithoutNewlineKept(t: string)
    requires StartsWith(t, Fence)
    requires forall i :: 0 <= i < |t| ==> t[i] != '\n'
    requires |t| >= 6 || !EndsWith(t, Fence)
    ensures StartsWith(CleanTrimmed(t), Fence)
  {
    var inner := UnfenceWithoutNewline(t);
    FenceSurvivesTrim(inner);
    var c := StripFence(t);
    assert c == Trim(inner);
    FenceFailsInlineTest(c);
  }

  /** Trimming keeps an opening fence. */
  lemma FenceSurvivesTrim(s: string)
    requires |s| >= 3 && s[0] == '`' && s[1] == '`' && s[2] == '`'
    ensures StartsWith(Trim(s), Fence) && Trim(s)[1] == '`'
  {
    TrimKeepsPrefix(s, 3);
    assert s[..3] == Fence;
  }

  /** Text opening with two backticks is not a single-backtick answer. */
  lemma FenceFailsInlineTest(c: string)
    requires |c| >= 3 && c[1] == '`'
    ensures !InlineTest(c)
  {
    assert IndexOf(c, '`', 1) == 1;
  }

  /** Without a line break only the trailing fence is cut, so the opening fence survives. */
  lemma UnfenceWithoutNewline(t: string) returns (inner: string)
    requires StartsWith(t, Fence)
    requires forall i :: 0 <= i < |t| ==> t[i] != '\n'
    requires |t| >= 6 || !EndsWith(t, Fence)
    ensures inner == Unfence(t) && |inner| >= 3
    ensures inner[0] == '`' && inner[1] == '`' && inner[2] == '`'
  {
    assert IndexOf(t, '\n', 0) == -1;
    inner := Unfence(t);
    assert inner == if EndsWith(t, Fence) then t[..|t| - 3] else t;
    assert t[..3] == Fence;
    assert t[0] == '`' && t[1] == '`' && t[2] == '`';
  }

  /** Trimming does not touch a prefix free of white space. */
  lemma TrimKeepsPrefix(s: string, k: nat)
    requires k <= |s|
    requires forall i :: 0 <= i < k ==> !IsSpace(s[i])
    ensures |Trim(s)| >= k && Trim(s)[..k] == s[..k]
  {
    if k > 0 {
      SpaceRunEndIs(s, 0, 0);
      var b := SpaceRunStart(s, 0, |s|);
      assert !IsSpace(s[k - 1]);
      assert Trim(s) == s[0..b];
    }
  }

  /** Trimming drops one line break after trimmed text. */
  lemma TrimDropsNewline(code: string)
    requires IsTrimmed(code)
    ensures Trim(code + "\n") == code
  {
    var s := code + "\n";
    assert s[|code|] == '\n';
    if code != [] {
      assert s[0] == code[0] && s[|code| - 1] == code[|code| - 1];
    }
    TrimBetween(s, 0, |code|);
    assert s[0..|code|] == code;
  }

  /** The fenced branch cuts a fenced block down to its code and the line break before the
      closing fence. */
  lemma UnfenceFenced(lang: string, code: string)
    requires forall i :: 0 <= i < |lang| ==> lang[i] != '\n'
    ensures Unfence(Fence + lang + "\n" + code + "\n" + Fence) == code + "\n"
  {
    var text := Fence + lang + "\n" + code + "\n" + Fence;
    IndexOfIs(text, '\n', 0, 3 + |lang|);
    var body := text[4 + |lang|..];
    assert body == code + "\n" + Fence;
    assert EndsWith(body, Fence);
    assert body[..|body| - 3] == code + "\n";
  }

  /** A fenced answer loses its opening line and its closing fence: "```js\nhello()\n```"
      becomes "hello()". */
  lemma CleanFencedAnswer(lang: string, code: string)
    requires forall i :: 0 <= i < |lang| ==> lang[i] != '\n'
    requires IsTrimmed(code) && !SingleWrapped(code)
    ensures CleanMarkdownFormatting(Fence + lang + "\n" + code + "\n" + Fence) == code
  {
    var text := Fence + lang + "\n" + code + "\n" + Fence;
    assert text[0] == '`' && text[|text| - 1] == '`';
    assert Trim(text) == text;
    assert StartsWith(text, Fence) by { assert text[..3] == Fence; }
    UnfenceFenced(lang, code);
    TrimDropsNewline(code);
    assert StripFence(text) == code;
    InlineTestMeansSingleWrapped(code);
  }

  /** A lone backtick is left as it is. */
  lemma CleanLoneBacktick(text: string)
    requires Trim(text) == "`"
    ensures CleanMarkdownFormatting(text) == "`"
  {
    assert !StartsWith(Trim(text), Fence);
    CleanInlineBackticks(text);
  }

  /** Trimming removes one space on each side of trimmed text. */
  lemma TrimPadded(x: string)
    requires x != [] && IsTrimmed(x)
    ensures Trim(" " + x + " ") == x
  {
    var s := " " + x + " ";
    assert s[0] == ' ' && s[|x| + 1] == ' ';
    assert s[1] == x[0] && s[|x|] == x[|x| - 1];
    TrimBetween(s, 1, |x| + 1);
    assert s[1..|x| + 1] == x;
  }

  /** Backticks around padded text are removed, the padding is kept. */
  lemma CleanBacktickPadded(x: string)
    requires x != [] && IsTrimmed(x)
    requires forall i :: 0 <= i < |x| ==> x[i] != '`'
    ensures CleanTrimmed("` " + x + " `") == " " + x + " "
  {
    var s := "` " + x + " `";
    assert s[..3] != Fence by { assert s[..3][1] == ' '; }
    forall i | 0 < i < |s| - 1 ensures s[i] != '`' {
      if i == 1 || i == |s| - 2 {
        assert s[i] == ' ';
      } else {
        assert s[i] == x[i - 2];
      }
    }
    assert SingleWrapped(s);
    InlineTestMeansSingleWrapped(s);
    assert s[1..|s| - 1] == " " + x + " ";
  }

  /** The clean-up is not idempotent: backticks around padded text leave the padding, which
      a second pass trims, so "` x `" becomes " x " and then "x". */
  lemma CleanNotIdempotent(x: string)
    requires x != [] && IsTrimmed(x)
    requires forall i :: 0 <= i < |x| ==> x[i] != '`'
    ensures CleanMarkdownFormatting("` " + x + " `") == " " + x + " "
    ensures CleanMarkdownFormatting(" " + x + " ") == x
  {
    var s := "` " + x + " `";
    assert s[0] == '`' && s[|s| - 1] == '`';
    assert Trim(s) == s;
    CleanBacktickPadded(x);
    TrimPadded(x);
    CleanTrimmedPlain(x);
  }
}
