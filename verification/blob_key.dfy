/** The name under which a question's image is stored in the blob container:
    `quiz_{quizId}_q{index}_{filename}` (app.py line 89). */
module BlobKey {
  import opened Wrappers
  import opened Decimal

  /** The blob name for image number `index` of quiz `quizId`. */
  function Key(quizId: nat, index: nat, filename: string): string {
    "quiz_" + NatToString(quizId) + "_q" + NatToString(index) + "_" + filename
  }

  /** The length of the longest all-digit prefix of `s`. */
  function LeadingDigits(s: string): (n: nat)
    ensures n <= |s|
    ensures AllDigits(s[..n])
    ensures n < |s| ==> !IsDigit(s[n])
  {
    if |s| > 0 && IsDigit(s[0]) then
      var n := 1 + LeadingDigits(s[1..]);
      assert s[..n] == [s[0]] + s[1..][..n - 1];
      n
    else 0
  }

  /** Reads a number at the front of `s` that is followed by `sep`, and
      returns it with what comes after `sep`. */
  function ReadNumberBefore(s: string, sep: string): Option<(nat, string)> {
    var a := LeadingDigits(s);
    if a == 0 || a + |sep| > |s| || s[a..a + |sep|] != sep then None
    else Some((ParseDigits(s[..a]), s[a + |sep|..]))
  }

  /** Reads a blob name back into quiz id, question index and file name. */
  function Parse(key: string): Option<(nat, nat, string)> {
    if |key| < 5 || key[..5] != "quiz_" then None
    else match ReadNumberBefore(key[5..], "_q")
      case None => None
      case Some((quizId, rest)) =>
        match ReadNumberBefore(rest, "_")
        case None => None
        case Some((index, filename)) => Some((quizId, index, filename))
  }

  /** A digit string followed by a non-digit is read up to that character. */
  lemma LeadingDigitsOfNumber(n: nat, tail: string)
    requires |tail| > 0 && !IsDigit(tail[0])
    ensures LeadingDigits(NatToString(n) + tail) == |NatToString(n)|
  {
    var d := NatToString(n);
    var s := d + tail;
    NatToStringDigits(n);
    assert s[|d|] == tail[0];
    assert forall j :: 0 <= j < |d| ==> s[j] == d[j];
  }

  lemma ReadNumberBeforeOf(n: nat, sep: string, tail: string)
    requires |sep| > 0 && !IsDigit(sep[0])
    ensures ReadNumberBefore(NatToString(n) + sep + tail, sep) == Some((n, tail))
  {
    var d := NatToString(n);
    var s := d + sep + tail;
    assert s == d + (sep + tail);
    LeadingDigitsOfNumber(n, sep + tail);
    assert s[..|d|] == d;
    assert s[|d|..|d| + |sep|] == sep;
    assert s[|d| + |sep|..] == tail;
    ParseNatToString(n);
  }

  /** Every blob name the model builds is read back to the values it was built from. */
  lemma ParseKey(quizId: nat, index: nat, filename: string)
    ensures Parse(Key(quizId, index, filename)) == Some((quizId, index, filename))
  {
    var q, i := NatToString(quizId), NatToString(index);
    var key := Key(quizId, index, filename);
    var rest := i + "_" + filename;
    assert key == "quiz_" + (q + "_q" + rest);
    assert key[5..] == q + "_q" + rest;
    ReadNumberBeforeOf(quizId, "_q", rest);
    ReadNumberBeforeOf(index, "_", filename);
  }

  /** Two images get the same blob name only when quiz, index and file name all agree:
      images of one quiz never overwrite each other, nor those of another quiz. */
  lemma KeyInjective(q1: nat, i1: nat, f1: string, q2: nat, i2: nat, f2: string)
    requires Key(q1, i1, f1) == Key(q2, i2, f2)
    ensures q1 == q2 && i1 == i2 && f1 == f2
  {
    ParseKey(q1, i1, f1);
    ParseKey(q2, i2, f2);
  }
}
