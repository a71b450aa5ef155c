/** The answer normaliser used by grading: Python's `s.strip().lower()`.
    The functions carry only size facts in their contracts; what they
    compute is stated by the `...Spec` lemmas, which callers invoke where
    they need it. */
module Text {

  /** The code points Python's `str.isspace` accepts, which is what a bare
      `str.strip()` removes from both ends. */
  predicate IsSpace(c: char) {
    || ('\t' <= c <= '\r')
    || ('\U{1C}' <= c <= ' ')
    || c == '\U{85}' || c == '\U{A0}' || c == '\U{1680}'
    || ('\U{2000}' <= c <= '\U{200A}')
    || c == '\U{2028}' || c == '\U{2029}' || c == '\U{202F}'
    || c == '\U{205F}' || c == '\U{3000}'
  }

  /** Every character of `s` is whitespace. */
  predicate AllSpace(s: string) {
    forall i :: 0 <= i < |s| ==> IsSpace(s[i])
  }

  /** `s` neither starts nor ends with whitespace. */
  predicate Trimmed(s: string) {
    |s| > 0 ==> !IsSpace(s[0]) && !IsSpace(s[|s| - 1])
  }

  /** Drops leading whitespace. */
  function StripLeft(s: string): (r: string)
    ensures |r| <= |s|
  {
    if |s| > 0 && IsSpace(s[0]) then StripLeft(s[1..]) else s
  }

  /** Drops trailing whitespace. */
  function StripRight(s: string): (r: string)
    ensures |r| <= |s|
  {
    if |s| > 0 && IsSpace(s[|s| - 1]) then StripRight(s[..|s| - 1]) else s
  }

  /** Python's `str.strip()`. */
  function Strip(s: string): (r: string)
    ensures |r| <= |s|
  {
    StripRight(StripLeft(s))
  }

  /** Where the stripped text starts inside `s`. */
  function StripStart(s: string): nat {
    |s| - |StripLeft(s)|
  }

  /** StripLeft keeps a suffix of `s`, drops only whitespace, and leaves no
      leading whitespace. */
  lemma {:induction false} StripLeftSpec(s: string)
    ensures var r := StripLeft(s);
      && r == s[|s| - |r|..]
      && AllSpace(s[..|s| - |r|])
      && (|r| > 0 ==> !IsSpace(r[0]))
  {
    if |s| > 0 && IsSpace(s[0]) {
      var t := s[1..];
      StripLeftSpec(t);
      var r := StripLeft(s);
      assert r == StripLeft(t);
      var cut := |s| - |r|;
      assert t[cut - 1..] == s[cut..];
      forall i | 0 <= i < cut ensures IsSpace(s[..cut][i]) {
        if i > 0 {
          assert s[..cut][i] == t[..cut - 1][i - 1];
        }
      }
    } else {
      assert s[..0] == [];
    }
  }

  /** StripRight keeps a prefix of `s`, drops only whitespace, and leaves no
      trailing whitespace. */
  lemma {:induction false} StripRightSpec(s: string)
    ensures var r := StripRight(s);
      && r == s[..|r|]
      && AllSpace(s[|r|..])
      && (|r| > 0 ==> !IsSpace(r[|r| - 1]))
  {
    if |s| > 0 && IsSpace(s[|s| - 1]) {
      var t := s[..|s| - 1];
      StripRightSpec(t);
      var r := StripRight(s);
      assert t[..|r|] == s[..|r|];
      assert s[|r|..] == t[|r|..] + [s[|s| - 1]];
    } else {
      assert s[|s|..] == [];
    }
  }

  /** The stripped text is trimmed, and it is the slice of `s` that remains
      once the whitespace around it is removed. */
  lemma StripSpec(s: string)
    ensures var r, lo := Strip(s), StripStart(s);
      && Trimmed(r)
      && lo + |r| <= |s|
      && s[lo..lo + |r|] == r
      && AllSpace(s[..lo])
      && AllSpace(s[lo + |r|..])
  {
    var left := StripLeft(s);
    StripLeftSpec(s);
    StripRightSpec(left);
    var r := Strip(s);
    var lo := |s| - |left|;
    assert |r| > 0 ==> r[0] == left[0];
    assert s[lo..lo + |r|] == left[..|r|];
    assert s[lo + |r|..] == left[|r|..];
  }

  /** Python's `str.lower()` on one character, restricted to ASCII letters. */
  function LowerChar(c: char): (r: char)
    ensures !('A' <= r <= 'Z')
    ensures IsSpace(r) <==> IsSpace(c)
    ensures ('A' <= c <= 'Z') <==> r != c
  {
    if 'A' <= c <= 'Z' then (c as int + 32) as char else c
  }

  /** Python's `str.lower()`, character by character. */
  function Lower(s: string): (r: string)
    ensures |r| == |s|
  {
    if |s| == 0 then [] else [LowerChar(s[0])] + Lower(s[1..])
  }

  /** Each character of the result is the lower-cased character of `s`. */
  lemma {:induction false} LowerSpec(s: string)
    ensures forall i :: 0 <= i < |s| ==> Lower(s)[i] == LowerChar(s[i])
  {
    if |s| > 0 {
      LowerSpec(s[1..]);
      assert forall i :: 1 <= i < |s| ==> Lower(s)[i] == Lower(s[1..])[i - 1];
    }
  }

  /** The comparison key grading applies to both sides: `s.strip().lower()`. */
  function Normalize(s: string): string {
    Lower(Strip(s))
  }

  lemma {:induction false} StripLeftOfSpaces(pre: string, t: string)
    requires AllSpace(pre)
    requires |t| == 0 || !IsSpace(t[0])
    ensures StripLeft(pre + t) == t
  {
    if |pre| > 0 {
      assert (pre + t)[1..] == pre[1..] + t;
      StripLeftOfSpaces(pre[1..], t);
    }
  }

  lemma {:induction false} StripRightOfSpaces(t: string, suf: string)
    requires AllSpace(suf)
    requires |t| == 0 || !IsSpace(t[|t| - 1])
    ensures StripRight(t + suf) == t
  {
    if |suf| > 0 {
      assert (t + suf)[..|t + suf| - 1] == t + suf[..|suf| - 1];
      StripRightOfSpaces(t, suf[..|suf| - 1]);
    } else {
      assert t + suf == t;
    }
  }

  /** Stripping whitespace around a trimmed string gives back that string. */
  lemma StripUnique(pre: string, mid: string, suf: string)
    requires AllSpace(pre) && AllSpace(suf) && Trimmed(mid)
    ensures Strip(pre + mid + suf) == mid
  {
    if |mid| > 0 {
      assert pre + mid + suf == pre + (mid + suf);
      StripLeftOfSpaces(pre, mid + suf);
      StripRightOfSpaces(mid, suf);
    } else {
      assert pre + mid + suf == (pre + suf) + [];
      StripLeftOfSpaces(pre + suf, []);
      assert StripRight([]) == [];
    }
  }

  lemma AllSpaceAppend(a: string, b: string)
    requires AllSpace(a) && AllSpace(b)
    ensures AllSpace(a + b)
  {
    forall i | 0 <= i < |a + b| ensures IsSpace((a + b)[i]) {
      if i < |a| { assert (a + b)[i] == a[i]; } else { assert (a + b)[i] == b[i - |a|]; }
    }
  }

  /** Padding with whitespace on either side does not change the stripped form. */
  lemma StripIgnoresPadding(pre: string, s: string, suf: string)
    requires AllSpace(pre) && AllSpace(suf)
    ensures Strip(pre + s + suf) == Strip(s)
  {
    StripSpec(s);
    var r := Strip(s);
    var lo := StripStart(s);
    var head, tail := s[..lo], s[lo + |r|..];
    assert s == head + r + tail;
    assert pre + s + suf == (pre + head) + r + (tail + suf);
    AllSpaceAppend(pre, head);
    AllSpaceAppend(tail, suf);
    StripUnique(pre + head, r, tail + suf);
  }

  /** Stripping twice is stripping once. */
  lemma StripIdempotent(s: string)
    ensures Strip(Strip(s)) == Strip(s)
  {
    StripSpec(s);
    var r := Strip(s);
    assert [] + r + [] == r;
    StripUnique([], r, []);
  }

  lemma LowerAppend(a: string, b: string)
    ensures Lower(a + b) == Lower(a) + Lower(b)
  {
    LowerSpec(a);
    LowerSpec(b);
    LowerSpec(a + b);
    assert |Lower(a + b)| == |Lower(a) + Lower(b)|;
    forall i | 0 <= i < |a + b|
      ensures Lower(a + b)[i] == (Lower(a) + Lower(b))[i]
    {
      if i < |a| {
        assert (a + b)[i] == a[i];
      } else {
        assert (a + b)[i] == b[i - |a|];
      }
    }
  }

  lemma LowerKeepsSpace(t: string)
    requires AllSpace(t)
    ensures AllSpace(Lower(t))
  {
    LowerSpec(t);
  }

  lemma LowerKeepsTrimmed(t: string)
    requires Trimmed(t)
    ensures Trimmed(Lower(t))
  {
    LowerSpec(t);
  }

  lemma LowerOfThree(a: string, b: string, c: string)
    ensures Lower(a + b + c) == Lower(a) + Lower(b) + Lower(c)
  {
    LowerAppend(a + b, c);
    LowerAppend(a, b);
  }

  /** Lower-casing never moves the whitespace, so it commutes with strip. */
  lemma LowerCommutesWithStrip(s: string)
    ensures Strip(Lower(s)) == Lower(Strip(s))
  {
    StripSpec(s);
    var r := Strip(s);
    var lo := StripStart(s);
    var head, tail := s[..lo], s[lo + |r|..];
    assert s == head + r + tail;
    LowerOfThree(head, r, tail);
    LowerKeepsSpace(head);
    LowerKeepsSpace(tail);
    LowerKeepsTrimmed(r);
    StripUnique(Lower(head), Lower(r), Lower(tail));
  }

  /** Lower-casing twice is lower-casing once. */
  lemma LowerIdempotent(s: string)
    ensures Lower(Lower(s)) == Lower(s)
  {
    LowerSpec(s);
    LowerSpec(Lower(s));
  }

  /** The normaliser is idempotent: a normalised answer is its own key. */
  lemma NormalizeIdempotent(s: string)
    ensures Normalize(Normalize(s)) == Normalize(s)
  {
    LowerCommutesWithStrip(Strip(s));
    StripIdempotent(s);
    LowerIdempotent(Strip(s));
  }

  /** Whitespace padding leaves the comparison key unchanged. */
  lemma NormalizeIgnoresPadding(pre: string, s: string, suf: string)
    requires AllSpace(pre) && AllSpace(suf)
    ensures Normalize(pre + s + suf) == Normalize(s)
  {
    StripIgnoresPadding(pre, s, suf);
  }

  /** Two strings that lower-case to the same text have the same comparison key. */
  lemma NormalizeIgnoresCase(s: string, t: string)
    requires Lower(s) == Lower(t)
    ensures Normalize(s) == Normalize(t)
  {
    LowerCommutesWithStrip(s);
    LowerCommutesWithStrip(t);
  }

  /** Text with no surrounding whitespace is only lower-cased. */
  lemma NormalizeTrimmed(s: string)
    requires Trimmed(s)
    ensures Normalize(s) == Lower(s)
  {
    StripUnique([], s, []);
    assert [] + s + [] == s;
  }
}
