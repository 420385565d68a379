/** The Python string operations the output file name is built with:
    `str.strip` with one character, `str.replace`, and `str` of a pair of
    integers. */
module Text {
  import opened Common

  /** `s.lstrip(c)`: drops every leading `c`. */
  function TrimStart(s: string, c: char): string
    decreases |s|
  {
    if |s| > 0 && s[0] == c then TrimStart(s[1..], c) else s
  }

  /** `s.rstrip(c)`: drops every trailing `c`. */
  function TrimEnd(s: string, c: char): string
    decreases |s|
  {
    if |s| > 0 && s[|s| - 1] == c then TrimEnd(s[..|s| - 1], c) else s
  }

  /** `s.strip(c)`. */
  function Strip(s: string, c: char): string
  {
    TrimEnd(TrimStart(s, c), c)
  }

  /** `s.replace(pat, rep)`: every occurrence of `pat`, scanning left to right
      without overlaps, replaced by `rep`. */
  function Replace(s: string, pat: string, rep: string): string
    requires |pat| >= 1
    decreases |s|
  {
    if |s| < |pat| then s
    else if s[..|pat|] == pat then rep + Replace(s[|pat|..], pat, rep)
    else [s[0]] + Replace(s[1..], pat, rep)
  }

  /** `str((h, w))` for two integers. */
  function PairToString(p: (int, int)): string
  {
    "(" + IntToString(p.0) + ", " + IntToString(p.1) + ")"
  }

  /** The size part of an output file name:
      `str(size).strip("(").strip(")").replace(", ", "x")`. */
  function SizeSuffix(p: (int, int)): string
  {
    Replace(Strip(Strip(PairToString(p), '('), ')'), ", ", "x")
  }

  /** The suffix reads "HxW". */
  lemma SizeSuffixReadsHxW(p: (int, int))
    ensures SizeSuffix(p) == IntToString(p.0) + "x" + IntToString(p.1)
  {
    var h, w := IntToString(p.0), IntToString(p.1);
    IntToStringIsNumeral(p.0);
    IntToStringIsNumeral(p.1);
    var inner := h + ", " + w;
    assert PairToString(p) == "(" + inner + ")";
    StripsParentheses(inner);
    ReplaceSeparator(h, w);
  }

  /** The two strips take exactly the outer parentheses off a text that starts
      and ends with numerals. */
  lemma StripsParentheses(inner: string)
    requires |inner| >= 1 && inner[0] != '(' && inner[0] != ')' && inner[|inner| - 1] != ')'
    ensures Strip(Strip("(" + inner + ")", '('), ')') == inner
  {
    var s := "(" + inner + ")";
    assert s[1..] == inner + ")";
    assert TrimStart(s, '(') == inner + ")";
    assert TrimEnd(inner + ")", '(') == inner + ")";
    assert TrimStart(inner + ")", ')') == inner + ")";
    assert (inner + ")")[..|inner|] == inner;
    assert TrimEnd(inner + ")", ')') == TrimEnd(inner, ')');
  }

  /** Replacing ", " in "h, w" where neither numeral holds a comma. */
  lemma ReplaceSeparator(h: string, w: string)
    requires IsNumeral(h) && IsNumeral(w)
    ensures Replace(h + ", " + w, ", ", "x") == h + "x" + w
  {
    ReplaceAfterNumeral(h, w);
    ReplaceInNumeral(w);
  }

  lemma {:induction false} ReplaceAfterNumeral(h: string, w: string)
    requires IsNumeral(h)
    ensures Replace(h + ", " + w, ", ", "x") == h + "x" + Replace(w, ", ", "x")
    decreases |h|
  {
    var s := h + ", " + w;
    if h == [] {
      assert s[..2] == ", " && s[2..] == w;
    } else {
      assert s[..2] != ", " by {
        assert s[0] == h[0];
      }
      assert s[1..] == h[1..] + ", " + w;
      ReplaceAfterNumeral(h[1..], w);
      assert [s[0]] + h[1..] == h;
    }
  }

  lemma {:induction false} ReplaceInNumeral(w: string)
    requires IsNumeral(w)
    ensures Replace(w, ", ", "x") == w
    decreases |w|
  {
    if |w| >= 2 {
      assert w[..2] != ", " by {
        assert w[..2][0] == w[0];
      }
      ReplaceInNumeral(w[1..]);
      assert [w[0]] + w[1..] == w;
    }
  }
}
