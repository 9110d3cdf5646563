/** `ensure_execute_python_tags`: turns a model's reply into code wrapped in
    `<execute_python>` tags. The text is stripped, one leading ```` ``` ````
    or ```` ```python ```` fence and one trailing ```` ``` ```` fence are cut
    out by `re.sub(r"^```(?:python)?\s*|\s*```$", "", text)`, the rest is
    stripped again, and the tags are added unless the opening tag already
    occurs in it. */
module CodeTags {

  /** Python's whitespace: the characters `str.isspace()` accepts, which are
      also the ones `\s` matches in a `str` pattern. */
  predicate IsSpace(c: char)
  {
    || '\t' <= c <= '\r'
    || '\U{1C}' <= c <= ' '
    || c == '\U{85}' || c == '\U{A0}' || c == '\U{1680}'
    || '\U{2000}' <= c <= '\U{200A}'
    || c == '\U{2028}' || c == '\U{2029}' || c == '\U{202F}' || c == '\U{205F}'
    || c == '\U{3000}'
  }

  ghost predicate AllSpace(s: string)
  {
    forall i :: 0 <= i < |s| ==> IsSpace(s[i])
  }

  /** Neither end of `s` is whitespace. */
  predicate IsStripped(s: string)
  {
    s == [] || (!IsSpace(s[0]) && !IsSpace(s[|s| - 1]))
  }

  predicate StartsWith(s: string, p: string)
  {
    |p| <= |s| && s[..|p|] == p
  }

  predicate EndsWith(s: string, p: string)
  {
    |p| <= |s| && s[|s| - |p|..] == p
  }

  /** Python's `p in s`. */
  predicate Contains(s: string, p: string)
  {
    exists i :: 0 <= i <= |s| && StartsWith(s[i..], p)
  }

  /** The end of the run of whitespace that starts at `i`. */
  function SpaceRunEnd(s: string, i: nat): (k: nat)
    requires i <= |s|
    ensures i <= k <= |s|
    ensures forall j :: i <= j < k ==> IsSpace(s[j])
    ensures k == |s| || !IsSpace(s[k])
    decreases |s| - i
  {
    if i < |s| && IsSpace(s[i]) then SpaceRunEnd(s, i + 1) else i
  }

  /** The start of the run of whitespace that ends just before `i`. */
  function SpaceRunStart(s: string, i: nat): (k: nat)
    requires i <= |s|
    ensures k <= i
    ensures forall j :: k <= j < i ==> IsSpace(s[j])
    ensures k == 0 || !IsSpace(s[k - 1])
  {
    if 0 < i && IsSpace(s[i - 1]) then SpaceRunStart(s, i - 1) else i
  }

  /** `s` without its leading whitespace. */
  function TrimStart(s: string): (r: string)
    ensures |r| <= |s| && r == s[|s| - |r|..]
    ensures AllSpace(s[..|s| - |r|])
    ensures r == [] || !IsSpace(r[0])
  {
    var k := SpaceRunEnd(s, 0);
    assert |s| - |s[k..]| == k;
    s[k..]
  }

  /** `s` without its trailing whitespace. */
  function TrimEnd(s: string): (r: string)
    ensures |r| <= |s| && r == s[..|r|]
    ensures AllSpace(s[|r|..])
    ensures r == [] || !IsSpace(r[|r| - 1])
  {
    var k := SpaceRunStart(s, |s|);
    assert |s[..k]| == k;
    s[..k]
  }

  /** `r` is the slice of `s` at `i`, with only whitespace before and
      after it. */
  ghost predicate StripWindow(s: string, r: string, i: int)
  {
    0 <= i && i + |r| <= |s| && r == s[i..i + |r|]
    && AllSpace(s[..i]) && AllSpace(s[i + |r|..])
  }

  /** Python's `s.strip()`: `s` without whitespace at either end. */
  function Strip(s: string): (r: string)
    ensures IsStripped(r)
    ensures exists i :: StripWindow(s, r, i)
  {
    StripParts(s);
    var r := TrimEnd(TrimStart(s));
    assert StripWindow(s, r, |s| - |TrimStart(s)|);
    r
  }

  /** Trimming the start and then the end leaves a stripped slice of `s`
      with whitespace on either side of it. */
  lemma StripParts(s: string)
    ensures var a := TrimStart(s);
            var r := TrimEnd(a);
            var i := |s| - |a|;
            && i + |r| <= |s| && r == s[i..i + |r|]
            && AllSpace(s[..i]) && AllSpace(s[i + |r|..])
            && IsStripped(r)
  {
    var a := TrimStart(s);
    var r := TrimEnd(a);
    SliceOfSuffix(s, |s| - |a|, a, r);
    if r != [] {
      assert r[0] == a[0];
    }
  }

  /** A prefix `r` of the suffix `a` of `s` that starts at `i` is the slice
      of `s` from `i`, and what follows `r` in `a` is what follows it in `s`. */
  lemma SliceOfSuffix(s: string, i: int, a: string, r: string)
    requires 0 <= i <= |s| && a == s[i..]
    requires |r| <= |a| && r == a[..|r|]
    ensures i + |r| <= |s| && r == s[i..i + |r|] && s[i + |r|..] == a[|r|..]
  {
  }

  /** A run of whitespace in front of text that does not start with
      whitespace is exactly what TrimStart takes off. */
  lemma TrimStartOfSpaceThen(w: string, x: string)
    requires AllSpace(w)
    requires x == [] || !IsSpace(x[0])
    ensures TrimStart(w + x) == x
  {
    var t := w + x;
    assert forall j :: 0 <= j < |w| ==> t[j] == w[j];
    assert x != [] ==> t[|w|] == x[0];
    assert SpaceRunEnd(t, 0) == |w|;
    assert t[|w|..] == x;
  }

  /** A run of whitespace after text that does not end with whitespace is
      exactly what TrimEnd takes off. */
  lemma TrimEndOfThenSpace(x: string, w: string)
    requires AllSpace(w)
    requires x == [] || !IsSpace(x[|x| - 1])
    ensures TrimEnd(x + w) == x
  {
    var t := x + w;
    assert forall j :: |x| <= j < |t| ==> t[j] == w[j - |x|];
    assert x != [] ==> t[|x| - 1] == x[|x| - 1];
    assert SpaceRunStart(t, |t|) == |x|;
    assert t[..|x|] == x;
  }

  /** Stripping leaves stripped text as it is; so stripping twice is
      stripping once. */
  lemma StripKeepsStripped(s: string)
    requires IsStripped(s)
    ensures Strip(s) == s
  {
    var none: string := [];
    assert none + s == s && s + none == s;
    TrimStartOfSpaceThen(none, s);
    TrimEndOfThenSpace(s, none);
  }

  const Fence: string := "```"
  const OpenTag: string := "<execute_python>"
  const CloseTag: string := "</execute_python>"

  /** The length of what the first alternative, `^```(?:python)?\s*`,
      matches at the start of `t`: the fence, the optional word `python`,
      and all whitespace after them; 0 when `t` does not start with a
      fence. */
  function LeadingFenceLength(t: string): (n: nat)
    ensures n <= |t|
    ensures n == 0 <==> !StartsWith(t, Fence)
  {
    if !StartsWith(t, Fence) then 0
    else
      var a := if StartsWith(t[3..], "python") then 9 else 3;
      a + (|t[a..]| - |TrimStart(t[a..])|)
  }

  /** The first alternative spans the fence, then `python` when the text
      goes on with it, then the whole run of whitespace after that, and
      stops at the first character that is not whitespace. */
  lemma LeadingFenceSpan(t: string)
    requires StartsWith(t, Fence)
    ensures var n := LeadingFenceLength(t);
            var a := if StartsWith(t[3..], "python") then 9 else 3;
            && a <= n
            && AllSpace(t[a..n])
            && (n == |t| || !IsSpace(t[n]))
  {
    var a := if StartsWith(t[3..], "python") then 9 else 3;
    var u := t[a..];
    var v := TrimStart(u);
    var n := a + (|u| - |v|);
    assert n == LeadingFenceLength(t);
    assert t[a..n] == u[..|u| - |v|];
    if n < |t| {
      assert t[n] == v[0];
    }
  }

  /** What the second alternative, `\s*```$`, removes from the text after
      the first match: a closing fence at the very end together with all
      whitespace before it. The match starts at the leftmost position from
      which only whitespace and the final fence follow. */
  function WithoutTrailingFence(r: string): (res: string)
    ensures |res| <= |r| && res == r[..|res|]
    ensures !EndsWith(r, Fence) ==> res == r
    ensures EndsWith(r, Fence) ==>
              && |res| <= |r| - 3
              && res == r[..|res|]
              && AllSpace(r[|res|..|r| - 3])
              && (res == [] || !IsSpace(res[|res| - 1]))
  {
    if EndsWith(r, Fence) then
      var res := TrimEnd(r[..|r| - 3]);
      assert r[..|r| - 3][..|res|] == r[..|res|];
      assert r[|res|..|r| - 3] == r[..|r| - 3][|res|..];
      res
    else
      assert r[..|r|] == r;
      r
  }

  /** `re.sub(r"^```(?:python)?\s*|\s*```$", "", t)`. The scan matches the
      first alternative at most once, at the start; it resumes after that
      match and the second alternative then matches at most once, at the
      end. `$` is read as the end of the text: before the call the text has
      been stripped, so it cannot end with the newline that `$` may also
      precede. */
  function RemoveFences(t: string): string
  {
    WithoutTrailingFence(t[LeadingFenceLength(t)..])
  }

  /** The second alternative, applied to the text after position `n`, cuts
      only a closing fence and the whitespace run before it. */
  lemma TrailingFenceCut(t: string, n: nat)
    requires n <= |t|
    ensures var r := WithoutTrailingFence(t[n..]);
            && |r| <= |t| - n
            && r == t[n..n + |r|]
            && (EndsWith(t[n..], Fence) ==> n + |r| <= |t| - 3 && AllSpace(t[n + |r|..|t| - 3]))
            && (!EndsWith(t[n..], Fence) ==> r == t[n..])
  {
    var u := t[n..];
    var r := WithoutTrailingFence(u);
    assert u[..|r|] == t[n..n + |r|];
    if EndsWith(u, Fence) {
      assert t[n + |r|..|t| - 3] == u[|r|..|u| - 3];
    }
  }

  /** What the substitution cuts: the opening-fence match at the front and,
      when what follows it ends with a fence, that fence with the whitespace
      run before it; the text in between is kept as it is. */
  lemma RemoveFencesCuts(t: string)
    ensures var n := LeadingFenceLength(t);
            var r := RemoveFences(t);
            && |r| <= |t| - n
            && r == t[n..n + |r|]
            && (EndsWith(t[n..], Fence) ==> n + |r| <= |t| - 3 && AllSpace(t[n + |r|..|t| - 3]))
            && (!EndsWith(t[n..], Fence) ==> r == t[n..])
  {
    TrailingFenceCut(t, LeadingFenceLength(t));
  }

  /** The text once stripped, cleared of fences and stripped again. */
  function Normalize(s: string): string
  {
    Strip(RemoveFences(Strip(s)))
  }

  /** The f-string `f"<execute_python>\n{t}\n</execute_python>"`. */
  function Wrap(t: string): (r: string)
    ensures |r| == |OpenTag| + 1 + |t| + 1 + |CloseTag|
    ensures StartsWith(r, OpenTag + "\n") && EndsWith(r, "\n" + CloseTag)
    ensures r[|OpenTag| + 1..|OpenTag| + 1 + |t|] == t
  {
    OpenTag + "\n" + t + "\n" + CloseTag
  }

  /** `ensure_execute_python_tags(s)`: the normalized text unchanged when it
      holds the opening tag anywhere, and otherwise that text inside the
      tags; either way the result holds the opening tag. */
  function EnsureExecutePythonTags(s: string): (r: string)
    ensures Contains(r, OpenTag)
    ensures Contains(Normalize(s), OpenTag) ==> r == Normalize(s)
    ensures !Contains(Normalize(s), OpenTag) ==> r == OpenTag + "\n" + Normalize(s) + "\n" + CloseTag
  {
    var t := Normalize(s);
    if Contains(t, OpenTag) then t
    else
      WrapHoldsTag(t);
      Wrap(t)
  }

  /** The wrapped text starts with `<`, ends with `>` and holds the tag. */
  lemma WrapHoldsTag(t: string)
    ensures StartsWith(Wrap(t), OpenTag) && Contains(Wrap(t), OpenTag)
    ensures Wrap(t)[0] == '<' && Wrap(t)[|Wrap(t)| - 1] == '>'
  {
    var w := Wrap(t);
    assert w[0..] == w;
    assert w[..|OpenTag|] == OpenTag;
  }

  /** Whitespace around the input does not change the result. */
  lemma SurroundingSpaceIgnored(s: string)
    ensures EnsureExecutePythonTags(Strip(s)) == EnsureExecutePythonTags(s)
  {
    StripKeepsStripped(Strip(s));
    assert Strip(Strip(s)) == Strip(s);
    assert Normalize(Strip(s)) == Normalize(s);
  }

  /** The normalized text has no whitespace at either end. */
  lemma NormalizedIsStripped(s: string)
    ensures IsStripped(Normalize(s))
  {
  }

  /** Stripped text that neither starts nor ends with a fence has none
      removed. */
  lemma NoFenceNothingRemoved(w: string)
    requires IsStripped(w)
    requires !StartsWith(w, Fence) && !EndsWith(w, Fence)
    ensures RemoveFences(w) == w
  {
    assert w[0..] == w;
  }

  /** Stripped text whose first and last characters are not backquotes
      passes through normalization untouched. */
  lemma UnfencedIsNormal(w: string)
    requires IsStripped(w) && w != []
    requires w[0] != '`' && w[|w| - 1] != '`'
    ensures Normalize(w) == w
  {
    StripKeepsStripped(w);
    assert !StartsWith(w, Fence) by {
      if |Fence| <= |w| { assert w[..3][0] == w[0]; }
    }
    assert !EndsWith(w, Fence) by {
      if |Fence| <= |w| { assert w[|w| - 3..][2] == w[|w| - 1]; }
    }
    NoFenceNothingRemoved(w);
  }

  /** Wrapped text passes through normalization untouched. */
  lemma WrapIsNormal(t: string)
    ensures Normalize(Wrap(t)) == Wrap(t)
  {
    WrapHoldsTag(t);
    UnfencedIsNormal(Wrap(t));
  }

  /** Whenever the tags were added, a second application changes nothing. */
  lemma WrappedIsFixedPoint(s: string)
    ensures !Contains(Normalize(s), OpenTag) ==>
              EnsureExecutePythonTags(EnsureExecutePythonTags(s)) == EnsureExecutePythonTags(s)
  {
    if !Contains(Normalize(s), OpenTag) {
      WrapIsNormal(Normalize(s));
      WrapHoldsTag(Normalize(s));
    }
  }

  /** The two opening fences the pattern recognises. */
  predicate IsOpeningFence(open: string)
  {
    open == "```" || open == "```python"
  }

  /** An opening fence line: the first alternative takes the fence, the
      optional word `python` and the whitespace after it, and stops at text
      that does not start with whitespace. */
  lemma OpeningFenceLength(open: string, w: string, x: string)
    requires IsOpeningFence(open)
    requires w != [] && AllSpace(w)
    requires x == [] || !IsSpace(x[0])
    ensures LeadingFenceLength(open + w + x) == |open| + |w|
  {
    var t := open + w + x;
    assert t[..|open|] == open;
    assert StartsWith(t, Fence) by { assert t[..3] == open[..3] == Fence; }
    assert StartsWith(t[3..], "python") <==> open == "```python" by {
      if open == "```python" {
        assert t[3..][..6] == t[3..9] == open[3..] == "python";
      } else {
        assert t[3..][0] == t[3] == w[0];
      }
    }
    assert t[|open|..] == w + x;
    TrimStartOfSpaceThen(w, x);
  }

  /** A closing fence: the second alternative takes the fence together with
      the whole run of whitespace before it, and stops at text that does not
      end with whitespace. */
  lemma ClosingFenceRemoved(x: string, w: string)
    requires AllSpace(w)
    requires x == [] || !IsSpace(x[|x| - 1])
    ensures WithoutTrailingFence(x + w + Fence) == x
  {
    var r := x + w + Fence;
    assert r[|r| - 3..] == Fence;
    assert r[..|r| - 3] == x + w;
    TrimEndOfThenSpace(x, w);
  }

  /** A closing fence on a line of its own after stripped text. */
  lemma ClosingFenceLineRemoved(u: string)
    requires IsStripped(u)
    ensures WithoutTrailingFence(u + "\n" + Fence) == u
  {
    ClosingFenceRemoved(u, "\n");
  }

  /** Fences come out of fenced code: for stripped `u`, the pattern removes
      both fence lines of ```` ```\n u \n``` ```` or
      ```` ```python\n u \n``` ```` and leaves `u`. */
  lemma FencesRemoved(open: string, u: string)
    requires IsOpeningFence(open)
    requires IsStripped(u)
    ensures RemoveFences(open + "\n" + u + "\n" + Fence) == u
  {
    var t := open + "\n" + u + "\n" + Fence;
    if u == [] {
      assert t == open + "\n\n" + Fence;
      OpeningFenceLength(open, "\n\n", Fence);
      assert t[|open| + 2..] == Fence;
      assert Fence[..0] == [];
    } else {
      var x := u + "\n" + Fence;
      assert x[0] == u[0];
      assert t == open + "\n" + x;
      OpeningFenceLength(open, "\n", x);
      assert t[|open| + 1..] == x;
      ClosingFenceLineRemoved(u);
    }
  }

  /** Code fenced on lines of its own comes out of normalization unchanged. */
  lemma FencedCodeRoundTrip(open: string, u: string)
    requires IsOpeningFence(open)
    requires IsStripped(u)
    ensures Normalize(open + "\n" + u + "\n" + Fence) == u
  {
    var t := open + "\n" + u + "\n" + Fence;
    assert t[0] == open[0] == '`';
    assert t[|t| - 1] == Fence[2] == '`';
    StripKeepsStripped(t);
    FencesRemoved(open, u);
    StripKeepsStripped(u);
  }

  /** So fenced code without the tag comes back wrapped, and fenced code
      that already holds the tag comes back bare. */
  lemma FencedCodeIsWrapped(open: string, u: string)
    requires IsOpeningFence(open)
    requires IsStripped(u)
    ensures EnsureExecutePythonTags(open + "\n" + u + "\n" + Fence)
            == if Contains(u, OpenTag) then u else Wrap(u)
  {
    FencedCodeRoundTrip(open, u);
  }
}
