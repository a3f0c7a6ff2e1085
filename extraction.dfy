/**
 * The JSON-object extraction of `getMovieSuggestions` and `getMovieData`: the completion text is
 * trimmed and matched against the greedy pattern `\{[\s\S]*\}`, which selects everything from the
 * first `{` to the last `}` after it. `JSON.parse` of the selected text is not modelled here: it is
 * a parameter of the search pipeline.
 */
module Extraction {
  import opened Wrappers
  import opened Text

  /** Some `{` is followed, somewhere later, by a `}`: the pattern can match. */
  predicate HasBracePair(s: string) {
    exists i, j :: 0 <= i < j < |s| && s[i] == '{' && s[j] == '}'
  }

  /**
   * The span [i, j] is the one the greedy pattern selects: it opens at the first `{` of `s` and
   * closes at the last `}` of `s`, which lies after it.
   */
  predicate IsGreedySpan(s: string, i: int, j: int) {
    0 <= i < j < |s| && s[i] == '{' && s[j] == '}'
    && (forall k :: 0 <= k < i ==> s[k] != '{')
    && (forall k :: j < k < |s| ==> s[k] != '}')
  }

  /** Where `c` first occurs in `s`: the position where a leftmost match of the pattern starts. */
  function FirstIndexOf(s: string, c: char): (r: Option<nat>)
    ensures r.None? ==> forall k :: 0 <= k < |s| ==> s[k] != c
    ensures r.Some? ==> r.value < |s| && s[r.value] == c && forall k :: 0 <= k < r.value ==> s[k] != c
  {
    if s == [] then None
    else if s[0] == c then Some(0)
    else match FirstIndexOf(s[1..], c)
      case None => None
      case Some(k) => Some(k + 1)
  }

  /** Where `c` last occurs in `s`: the position where the greedy `[\s\S]*` lets the match end. */
  function LastIndexOf(s: string, c: char): (r: Option<nat>)
    ensures r.None? ==> forall k :: 0 <= k < |s| ==> s[k] != c
    ensures r.Some? ==> r.value < |s| && s[r.value] == c && forall k :: r.value < k < |s| ==> s[k] != c
  {
    if s == [] then None
    else if s[|s| - 1] == c then Some(|s| - 1)
    else LastIndexOf(s[..|s| - 1], c)
  }

  /** Where the pattern matches in `s`, as the inclusive bounds of the match; None when it does not match. */
  function ObjectSpan(s: string): (r: Option<(nat, nat)>)
    ensures r.Some? <==> HasBracePair(s)
    ensures r.Some? ==> IsGreedySpan(s, r.value.0, r.value.1)
  {
    match (FirstIndexOf(s, '{'), LastIndexOf(s, '}'))
    case (Some(i), Some(j)) => if i < j then Some((i, j)) else None
    case _ => None
  }

  /**
   * `content.match(/\{[\s\S]*\}/)?.[0]`: the text from the first `{` through the last `}`, or
   * None when the text has no `{` followed by a `}`.
   */
  function ExtractObjectText(s: string): (r: Option<string>)
    ensures r.Some? <==> HasBracePair(s)
    ensures forall i, j :: IsGreedySpan(s, i, j) ==> r == Some(s[i..j + 1])
    ensures r.Some? ==> |r.value| >= 2 && r.value[0] == '{' && r.value[|r.value| - 1] == '}'
  {
    match ObjectSpan(s)
    case None => None
    case Some((i, j)) =>
      assert forall i', j' :: IsGreedySpan(s, i', j') ==> i' == i && j' == j;
      Some(s[i..j + 1])
  }

  /** The greedy span of a string is unique. */
  lemma {:induction false} GreedySpanIsUnique(s: string, i: int, j: int, i': int, j': int)
    requires IsGreedySpan(s, i, j) && IsGreedySpan(s, i', j')
    ensures i == i' && j == j'
  {
  }

  predicate NoOpenBrace(s: string) {
    forall k :: 0 <= k < |s| ==> s[k] != '{'
  }

  predicate NoCloseBrace(s: string) {
    forall k :: 0 <= k < |s| ==> s[k] != '}'
  }

  /** A greedy span of `m` is, shifted by `|p|`, the greedy span of `p + m + q`. */
  lemma {:induction false} WrappedSpan(p: string, m: string, q: string, i: int, j: int)
    requires NoOpenBrace(p) && NoCloseBrace(q) && IsGreedySpan(m, i, j)
    ensures IsGreedySpan(p + m + q, |p| + i, |p| + j)
  {
    var s, n := p + m + q, |p|;
    forall k | 0 <= k < n + i ensures s[k] != '{' {
      if k < n { assert s[k] == p[k]; } else { assert s[k] == m[k - n]; }
    }
    forall k | n + j < k < |s| ensures s[k] != '}' {
      if k < n + |m| { assert s[k] == m[k - n]; } else { assert s[k] == q[k - n - |m|]; }
    }
  }

  /** A `{ ... }` pair of `p + m + q` lies inside `m` when `p` holds no `{` and `q` no `}`. */
  lemma {:induction false} WrappedPair(p: string, m: string, q: string)
    requires NoOpenBrace(p) && NoCloseBrace(q) && HasBracePair(p + m + q)
    ensures HasBracePair(m)
  {
    var s, n := p + m + q, |p|;
    var i, j :| 0 <= i < j < |s| && s[i] == '{' && s[j] == '}';
    assert n <= i < j < n + |m|;
    assert m[i - n] == s[i] && m[j - n] == s[j];
  }

  /**
   * Text before the object that holds no `{` and text after it that holds no `}` do not change
   * what is extracted.
   */
  lemma {:induction false} ExtractIgnoresWrapping(p: string, m: string, q: string)
    requires NoOpenBrace(p) && NoCloseBrace(q)
    ensures ExtractObjectText(p + m + q) == ExtractObjectText(m)
  {
    if ObjectSpan(m).Some? {
      var (i, j) := ObjectSpan(m).value;
      ExtractShiftedSpan(p, m, q, i, j);
    } else if HasBracePair(p + m + q) {
      WrappedPair(p, m, q);
    }
  }

  /** The positive case of `ExtractIgnoresWrapping`: the object found in `m` is the one found in `p + m + q`. */
  lemma {:induction false} ExtractShiftedSpan(p: string, m: string, q: string, i: int, j: int)
    requires NoOpenBrace(p) && NoCloseBrace(q) && IsGreedySpan(m, i, j)
    ensures ExtractObjectText(p + m + q) == ExtractObjectText(m)
  {
    var s := p + m + q;
    WrappedSpan(p, m, q, i, j);
    SliceOfWrapped(p, m, q, i, j + 1);
    calc {
      ExtractObjectText(s);
      Some(s[|p| + i..|p| + j + 1]);
      Some(m[i..j + 1]);
      ExtractObjectText(m);
    }
  }

  lemma {:induction false} SliceOfWrapped(p: string, m: string, q: string, a: int, b: int)
    requires 0 <= a <= b <= |m|
    ensures (p + m + q)[|p| + a..|p| + b] == m[a..b]
  {
    var s := p + m + q;
    var t := s[|p| + a..|p| + b];
    forall k | 0 <= k < b - a ensures t[k] == m[a + k] {
      assert t[k] == s[|p| + a + k];
    }
  }

  /** An object text wrapped in prose or code fences without braces is recovered exactly. */
  lemma {:induction false} ExtractRecoversWrappedObject(p: string, obj: string, q: string)
    requires NoOpenBrace(p) && NoCloseBrace(q)
    requires |obj| >= 2 && obj[0] == '{' && obj[|obj| - 1] == '}'
    ensures ExtractObjectText(p + obj + q) == Some(obj)
  {
    ExtractIgnoresWrapping(p, obj, q);
    assert HasBracePair(obj) by { assert obj[0] == '{' && obj[|obj| - 1] == '}'; }
    assert IsGreedySpan(obj, 0, |obj| - 1);
    assert obj[0..|obj|] == obj;
  }

  /** Whitespace holds no brace. */
  lemma {:induction false} BlankHasNoBraces(w: string)
    requires AllWhitespace(w)
    ensures NoOpenBrace(w) && NoCloseBrace(w)
  {
    forall k | 0 <= k < |w| ensures w[k] != '{' && w[k] != '}' {
      assert IsWhitespace(w[k]);
    }
  }

  /** Trimming the completion first (script.js:149, 233) never changes the extracted text. */
  lemma {:induction false} ExtractIgnoresTrim(s: string)
    ensures ExtractObjectText(Trim(s)) == ExtractObjectText(s)
  {
    var p, q := TrimSplits(s);
    BlankHasNoBraces(p);
    BlankHasNoBraces(q);
    ExtractIgnoresWrapping(p, Trim(s), q);
  }

  /**
   * The known limit of the greedy pattern: a `}` in prose after the object is swallowed, so the
   * extracted text runs past the object's own closing brace.
   */
  lemma StrayBraceAfterObjectIsSwallowed()
    ensures ExtractObjectText("{\"a\":1} see {x}") == Some("{\"a\":1} see {x}")
  {
    var s := "{\"a\":1} see {x}";
    assert IsGreedySpan(s, 0, |s| - 1);
    assert s[0..|s|] == s;
  }
}
