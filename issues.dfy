/** The issues the patch linter reports, and the exact message each one
    is rendered as (scripts/validate_patches.py builds these strings with
    f-strings and returns them in lists). */
module Issues {
  import opened Text

  /** The replacement brand the branding check asks for. */
  const NewTerm: string := "PrivacyAgent"

  const HeaderAdvice: string := "(should start with 'From ')"

  const BrandingAdvice: string := ": Inconsistent branding - should use '" + NewTerm + "'"

  datatype Issue =
    | MissingHeader                     // content does not start with "From "
    | MissingDiffMarkers                // "---" or "+++" absent
    | MissingDiffSections               // "@@" absent
    | UnmatchedClose(line: nat)         // counter went negative on this line
    | UnclosedBraces(count: nat)        // counter positive at end of file
    | InconsistentBranding(line: nat)   // old brand without the new one

  /** The message text of an issue, character for character. */
  function IssueText(i: Issue): string {
    match i
    case MissingHeader => "Missing proper patch header " + HeaderAdvice
    case MissingDiffMarkers => "Missing file diff markers"
    case MissingDiffSections => "Missing diff sections"
    case UnmatchedClose(k) => "Line " + NatToString(k) + ": Unmatched closing brace"
    case UnclosedBraces(n) => "End of file: " + NatToString(n) + " unclosed braces"
    case InconsistentBranding(k) => "Line " + NatToString(k) + BrandingAdvice
  }

  /** `t` is `pre`, then the decimal digits of `n` without a leading zero,
      then `post`: the number can be read back from between the fixed parts. */
  ghost predicate ShowsNumber(t: string, pre: string, n: nat, post: string) {
    && |pre| + |post| < |t|
    && t[..|pre|] == pre && t[|t| - |post|..] == post
    && AllDigits(t[|pre|..|t| - |post|])
    && DecimalValue(t[|pre|..|t| - |post|]) == n
    && (|t| - |post| - |pre| > 1 ==> t[|pre|] != '0')
  }

  /** A number rendered between a prefix and a suffix shows that number. */
  lemma NumberShown(pre: string, n: nat, post: string)
    ensures ShowsNumber(pre + NatToString(n) + post, pre, n, post)
  {
    var d := NatToString(n);
    var t := pre + d + post;
    assert t[..|pre|] == pre;
    assert t[|t| - |post|..] == post;
    assert t[|pre|..|t| - |post|] == d;
    assert |d| > 1 ==> t[|pre|] == d[0];
  }

  /** The unmatched-close message is "Line ", the line number in decimal,
      then ": Unmatched closing brace". */
  lemma UnmatchedCloseMessage(k: nat)
    ensures ShowsNumber(IssueText(UnmatchedClose(k)), "Line ", k, ": Unmatched closing brace")
  {
    NumberShown("Line ", k, ": Unmatched closing brace");
  }

  /** The end-of-file message carries the count of unclosed braces in decimal. */
  lemma UnclosedBracesMessage(n: nat)
    ensures ShowsNumber(IssueText(UnclosedBraces(n)), "End of file: ", n, " unclosed braces")
  {
    NumberShown("End of file: ", n, " unclosed braces");
  }

  /** The branding message is "Line ", the line number in decimal, then the
      advice naming the new brand. */
  lemma BrandingMessage(k: nat)
    ensures ShowsNumber(IssueText(InconsistentBranding(k)), "Line ", k,
                        ": Inconsistent branding - should use '" + "PrivacyAgent" + "'")
  {
    NumberShown("Line ", k, BrandingAdvice);
  }

  /** Two digit runs each followed by a non-digit can only be equal as a
      whole when the runs and the rests are equal. */
  lemma DigitRunsAgree(d1: string, x: string, d2: string, y: string)
    requires AllDigits(d1) && AllDigits(d2)
    requires |x| > 0 && |y| > 0 && !('0' <= x[0] <= '9') && !('0' <= y[0] <= '9')
    requires d1 + x == d2 + y
    ensures d1 == d2 && x == y
  {
    var s := d1 + x;
    assert forall i :: 0 <= i < |d1| ==> s[i] == d1[i];
    assert s[|d1|] == x[0];
    assert forall i :: 0 <= i < |d2| ==> s[i] == d2[i];
    assert s[|d2|] == y[0];
    assert d1 == s[..|d1|] == d2;
    assert x == s[|d1|..] == y;
  }

  /** Equal strings with a common prefix agree after it. */
  lemma PrefixCancel(p: string, u: string, v: string)
    requires p + u == p + v
    ensures u == v
  {
    assert u == (p + u)[|p|..];
    assert v == (p + v)[|p|..];
  }

  /** A digit run between a fixed prefix and a non-digit can be read back. */
  lemma DigitsAfterPrefix(p: string, d1: string, x: string, d2: string, y: string)
    requires AllDigits(d1) && AllDigits(d2)
    requires |x| > 0 && |y| > 0 && !('0' <= x[0] <= '9') && !('0' <= y[0] <= '9')
    requires p + d1 + x == p + d2 + y
    ensures d1 == d2 && x == y
  {
    assert p + (d1 + x) == p + (d2 + y) by {
      assert p + d1 + x == p + (d1 + x);
      assert p + d2 + y == p + (d2 + y);
    }
    PrefixCancel(p, d1 + x, d2 + y);
    DigitRunsAgree(d1, x, d2, y);
  }

  /** The number rendered after a fixed prefix can be read back. */
  lemma NumberAfterPrefix(p: string, a: nat, x: string, b: nat, y: string)
    requires |x| > 0 && |y| > 0 && !('0' <= x[0] <= '9') && !('0' <= y[0] <= '9')
    requires p + NatToString(a) + x == p + NatToString(b) + y
    ensures a == b && x == y
  {
    DigitsAfterPrefix(p, NatToString(a), x, NatToString(b), y);
  }

  /** The leading character of each message, and for the three "Missing"
      messages the character after "Missing ", tell the kinds apart. */
  lemma TextSignature(i: Issue)
    ensures |IssueText(i)| > 8
    ensures i.MissingHeader? ==> IssueText(i)[0] == 'M' && IssueText(i)[8] == 'p'
    ensures i.MissingDiffMarkers? ==> IssueText(i)[0] == 'M' && IssueText(i)[8] == 'f'
    ensures i.MissingDiffSections? ==> IssueText(i)[0] == 'M' && IssueText(i)[8] == 'd'
    ensures i.UnmatchedClose? || i.InconsistentBranding? ==> IssueText(i)[0] == 'L'
    ensures i.UnclosedBraces? ==> IssueText(i)[0] == 'E'
  {
    var s := IssueText(i);
    match i
    case MissingHeader =>
      assert s == "Missing proper patch header " + HeaderAdvice;
    case MissingDiffMarkers =>
      assert s == "Missing file diff markers";
    case MissingDiffSections =>
      assert s == "Missing diff sections";
    case UnmatchedClose(k) =>
      assert s == "Line " + NatToString(k) + ": Unmatched closing brace";
    case InconsistentBranding(k) =>
      assert s == "Line " + NatToString(k) + BrandingAdvice;
    case UnclosedBraces(n) =>
      assert s == "End of file: " + NatToString(n) + " unclosed braces";
  }

  /** What follows the line number in a per-line message. */
  function LineTail(i: Issue): (r: string)
    requires i.UnmatchedClose? || i.InconsistentBranding?
    ensures |r| > 0 && r[0] == ':'
  {
    if i.UnmatchedClose? then ": Unmatched closing brace" else BrandingAdvice
  }

  /** Distinct issues have distinct messages, so the datatype loses nothing
      against the strings the script returns. */
  lemma IssueTextInjective(a: Issue, b: Issue)
    requires IssueText(a) == IssueText(b)
    ensures a == b
  {
    TextSignature(a);
    TextSignature(b);
    if (a.UnmatchedClose? || a.InconsistentBranding?) && (b.UnmatchedClose? || b.InconsistentBranding?) {
      NumberAfterPrefix("Line ", a.line, LineTail(a), b.line, LineTail(b));
    }
    if a.UnclosedBraces? && b.UnclosedBraces? {
      NumberAfterPrefix("End of file: ", a.count, " unclosed braces", b.count, " unclosed braces");
    }
  }
}
