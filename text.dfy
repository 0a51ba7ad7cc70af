/** String operations the linter relies on, written over `seq<char>`:
    prefix and substring tests, character counts, whitespace stripping,
    ASCII lower-casing, splitting on newlines and decimal rendering. */
module Text {

  /** `s.startswith(p)`, compared character by character. */
  predicate StartsWith(s: string, p: string)
    decreases |p|
  {
    |p| == 0 || (|s| > 0 && s[0] == p[0] && StartsWith(s[1..], p[1..]))
  }

  /** The character-by-character test is the prefix test. */
  lemma {:induction false} StartsWithIffPrefix(s: string, p: string)
    ensures StartsWith(s, p) <==> |p| <= |s| && s[..|p|] == p
    decreases |p|
  {
    if |p| > 0 && |s| > 0 {
      StartsWithIffPrefix(s[1..], p[1..]);
      if |p| <= |s| {
        assert s[..|p|] == [s[0]] + s[1..][..|p| - 1];
        assert p == [p[0]] + p[1..];
      }
    }
  }

  /** `s.startswith(tuple(ps))`, trying the prefixes in order. */
  predicate StartsWithAny(s: string, ps: seq<string>)
    decreases |ps|
  {
    |ps| > 0 && (StartsWith(s, ps[0]) || StartsWithAny(s, ps[1..]))
  }

  /** Trying the prefixes in order succeeds exactly when one of them matches. */
  lemma {:induction false} StartsWithAnyIffSome(s: string, ps: seq<string>)
    ensures StartsWithAny(s, ps) <==> exists i :: 0 <= i < |ps| && StartsWith(s, ps[i])
    decreases |ps|
  {
    if |ps| > 0 {
      StartsWithAnyIffSome(s, ps[1..]);
      assert forall i :: 1 <= i < |ps| ==> ps[i] == ps[1..][i - 1];
    }
  }

  /** Position-by-position definition of a substring: `sub` occurs in `s` at `i`. */
  ghost predicate OccursAt(s: string, sub: string, i: nat) {
    i <= |s| && StartsWith(s[i..], sub)
  }

  /** `sub in s`, computed by scanning from the left. */
  predicate Contains(s: string, sub: string)
    decreases |s|
  {
    StartsWith(s, sub) || (|s| > 0 && Contains(s[1..], sub))
  }

  /** Where the scan succeeds, the needle occurs. */
  lemma {:induction false} ContainsAt(s: string, sub: string) returns (i: nat)
    requires Contains(s, sub)
    ensures OccursAt(s, sub, i)
    decreases |s|
  {
    if StartsWith(s, sub) {
      assert s[0..] == s;
      i := 0;
    } else {
      var j := ContainsAt(s[1..], sub);
      assert s[1..][j..] == s[j + 1..];
      i := j + 1;
    }
  }

  /** Where the needle occurs, the scan succeeds. */
  lemma {:induction false} OccursContains(s: string, sub: string, i: nat)
    requires OccursAt(s, sub, i)
    ensures Contains(s, sub)
    decreases i
  {
    if i == 0 {
      assert s[0..] == s;
    } else {
      assert s[1..][i - 1..] == s[i..];
      OccursContains(s[1..], sub, i - 1);
    }
  }

  /** The scan agrees with the position-by-position definition. */
  lemma ContainsIffOccurs(s: string, sub: string)
    ensures Contains(s, sub) <==> exists i: nat :: OccursAt(s, sub, i)
  {
    if Contains(s, sub) {
      var i := ContainsAt(s, sub);
    }
    if exists i: nat :: OccursAt(s, sub, i) {
      var i: nat :| OccursAt(s, sub, i);
      OccursContains(s, sub, i);
    }
  }

  /** `any(t in s for t in ts)` */
  predicate ContainsAny(s: string, ts: seq<string>)
    decreases |ts|
  {
    |ts| > 0 && (Contains(s, ts[0]) || ContainsAny(s, ts[1..]))
  }

  /** Trying the terms in order succeeds exactly when one of them occurs. */
  lemma {:induction false} ContainsAnyIffSome(s: string, ts: seq<string>)
    ensures ContainsAny(s, ts) <==> exists i :: 0 <= i < |ts| && Contains(s, ts[i])
    decreases |ts|
  {
    if |ts| > 0 {
      ContainsAnyIffSome(s, ts[1..]);
      assert forall i :: 1 <= i < |ts| ==> ts[i] == ts[1..][i - 1];
    }
  }

  /** `s.count(c)` for a one-character needle. */
  function Count(s: string, c: char): (n: nat)
    ensures n == multiset(s)[c]
    ensures n <= |s|
  {
    if |s| == 0 then 0
    else
      assert s == [s[0]] + s[1..];
      (if s[0] == c then 1 else 0) + Count(s[1..], c)
  }

  /** The characters Python's `str.isspace` accepts among the ASCII range. */
  predicate IsSpace(c: char) {
    c == ' ' || (9 <= c as int <= 13) || (0x1c <= c as int <= 0x1f)
  }

  /** `s.lstrip()` restricted to ASCII whitespace. */
  function TrimStart(s: string): string
    decreases |s|
  {
    if |s| > 0 && IsSpace(s[0]) then TrimStart(s[1..]) else s
  }

  /** `s.rstrip()` restricted to ASCII whitespace. */
  function TrimEnd(s: string): string
    decreases |s|
  {
    if |s| > 0 && IsSpace(s[|s| - 1]) then TrimEnd(s[..|s| - 1]) else s
  }

  /** `s.strip()`: what is left once leading and trailing whitespace is gone. */
  function Strip(s: string): string
  {
    TrimEnd(TrimStart(s))
  }

  /** `lstrip` drops the leading run of whitespace, up to the first other character. */
  lemma {:induction false} TrimStartSuffix(s: string) returns (i: nat)
    ensures i <= |s| && TrimStart(s) == s[i..]
    ensures forall k :: 0 <= k < i ==> IsSpace(s[k])
    ensures i < |s| ==> !IsSpace(s[i])
    decreases |s|
  {
    if |s| > 0 && IsSpace(s[0]) {
      var j := TrimStartSuffix(s[1..]);
      assert s[1..][j..] == s[j + 1..];
      forall k | 1 <= k < j + 1
        ensures IsSpace(s[k])
      {
        assert s[k] == s[1..][k - 1];
      }
      i := j + 1;
      if i < |s| {
        assert s[i] == s[1..][j];
      }
    } else {
      i := 0;
      assert s[0..] == s;
    }
  }

  /** `rstrip` drops the trailing run of whitespace, back to the last other character. */
  lemma {:induction false} TrimEndPrefix(s: string) returns (j: nat)
    ensures j <= |s| && TrimEnd(s) == s[..j]
    ensures forall k :: j <= k < |s| ==> IsSpace(s[k])
    ensures j > 0 ==> !IsSpace(s[j - 1])
    decreases |s|
  {
    if |s| > 0 && IsSpace(s[|s| - 1]) {
      var u := s[..|s| - 1];
      j := TrimEndPrefix(u);
      assert u[..j] == s[..j];
      forall k | j <= k < |s| - 1
        ensures IsSpace(s[k])
      {
        assert s[k] == u[k];
      }
      if j > 0 {
        assert s[j - 1] == u[j - 1];
      }
    } else {
      j := |s|;
      assert s[..|s|] == s;
    }
  }

  /** `s[i..j]` is what stripping `s` keeps: only whitespace lies outside it. */
  ghost predicate IsStripSlice(s: string, i: int, j: int) {
    && 0 <= i <= j <= |s| && Strip(s) == s[i..j]
    && (forall k :: 0 <= k < i ==> IsSpace(s[k]))
    && (forall k :: j <= k < |s| ==> IsSpace(s[k]))
  }

  /** The stripped string is the slice `s[i..j]` with only whitespace
      outside it, and it neither starts nor ends with whitespace. */
  lemma StripIsSlice(s: string)
    ensures Strip(s) != [] ==> !IsSpace(Strip(s)[0]) && !IsSpace(Strip(s)[|Strip(s)| - 1])
    ensures exists i, j :: IsStripSlice(s, i, j)
  {
    var i := TrimStartSuffix(s);
    var t := s[i..];
    var m := TrimEndPrefix(t);
    var j := i + m;
    assert Strip(s) == s[i..j] by {
      assert t[..m] == s[i..j];
    }
    forall k | j <= k < |s|
      ensures IsSpace(s[k])
    {
      assert s[k] == t[k - i];
    }
    if m > 0 {
      assert Strip(s)[0] == s[i];
      assert Strip(s)[m - 1] == t[m - 1];
    }
    assert IsStripSlice(s, i, j);
  }

  /** ASCII case folding of one character. */
  function LowerChar(c: char): (d: char)
    ensures 'A' <= c <= 'Z' ==> 'a' <= d <= 'z' && d as int - c as int == 'a' as int - 'A' as int
    ensures !('A' <= c <= 'Z') ==> d == c
  {
    if 'A' <= c <= 'Z' then (c as int - 'A' as int + 'a' as int) as char else c
  }

  /** `s.lower()` restricted to ASCII letters. */
  function Lower(s: string): (r: string)
    ensures |r| == |s| && forall k :: 0 <= k < |s| ==> r[k] == LowerChar(s[k])
  {
    seq(|s|, k requires 0 <= k < |s| => LowerChar(s[k]))
  }

  /** Two characters are the same letter up to ASCII case (or simply equal). */
  predicate SameUpToCase(c: char, d: char) {
    || c == d
    || ('A' <= c <= 'Z' && d as int == c as int + 32)
    || ('A' <= d <= 'Z' && c as int == d as int + 32)
  }

  /** Lower-casing leaves no capital behind, and doing it twice changes
      nothing more. */
  lemma {:induction false} LowerFolds(s: string)
    ensures forall k :: 0 <= k < |Lower(s)| ==> !('A' <= Lower(s)[k] <= 'Z')
    ensures Lower(Lower(s)) == Lower(s)
  {
    var l := Lower(s);
    assert forall k :: 0 <= k < |l| ==> LowerChar(l[k]) == l[k];
  }

  /** A folded character equals a non-capital exactly when the two are the
      same letter up to case. */
  lemma LowerCharMatches(c: char, d: char)
    requires !('A' <= d <= 'Z')
    ensures LowerChar(c) == d <==> SameUpToCase(c, d)
  {
    if 'A' <= c <= 'Z' {
      assert LowerChar(c) as int == c as int + 32;
    }
  }

  /** `w` occurs in `s` at `i`, letters compared up to ASCII case. */
  ghost predicate MatchesUpToCase(s: string, i: nat, w: string) {
    i + |w| <= |s| && forall k :: 0 <= k < |w| ==> SameUpToCase(s[i + k], w[k])
  }

  /** Finding a capital-free `w` in the lower-cased `s` at `i` is finding it
      in `s` at `i` up to case. */
  lemma {:induction false} OccursInLowerAt(s: string, w: string, i: nat)
    requires forall k :: 0 <= k < |w| ==> !('A' <= w[k] <= 'Z')
    ensures OccursAt(Lower(s), w, i) <==> MatchesUpToCase(s, i, w)
  {
    var l := Lower(s);
    if i <= |l| {
      StartsWithIffPrefix(l[i..], w);
      if i + |w| <= |s| {
        forall k | 0 <= k < |w|
          ensures l[i..][k] == w[k] <==> SameUpToCase(s[i + k], w[k])
        {
          LowerCharMatches(s[i + k], w[k]);
        }
        assert l[i..][..|w|] == w <==> forall k :: 0 <= k < |w| ==> l[i..][k] == w[k];
      }
    }
  }

  /** `w in s.lower()`, for a capital-free `w`, holds exactly when `w`
      occurs somewhere in `s` up to case. */
  lemma ContainsLowerIffMatch(s: string, w: string)
    requires forall k :: 0 <= k < |w| ==> !('A' <= w[k] <= 'Z')
    ensures Contains(Lower(s), w) <==> exists i: nat :: MatchesUpToCase(s, i, w)
  {
    ContainsIffOccurs(Lower(s), w);
    if Contains(Lower(s), w) {
      var i: nat :| OccursAt(Lower(s), w, i);
      OccursInLowerAt(s, w, i);
    }
    if exists i: nat :: MatchesUpToCase(s, i, w) {
      var i: nat :| MatchesUpToCase(s, i, w);
      OccursInLowerAt(s, w, i);
    }
  }

  /** Index of the first `c` in `s`, or `|s|` when there is none. */
  function IndexOf(s: string, c: char): (k: nat)
    ensures k <= |s|
    ensures forall i :: 0 <= i < k ==> s[i] != c
    ensures k < |s| ==> s[k] == c
  {
    if |s| == 0 || s[0] == c then 0 else 1 + IndexOf(s[1..], c)
  }

  /** The inverse of splitting: the pieces glued back with newlines. */
  function Join(parts: seq<string>): string
    requires |parts| >= 1
  {
    if |parts| == 1 then parts[0] else parts[0] + "\n" + Join(parts[1..])
  }

  /** `s.split('\n')`: the text up to the first newline, then the split of
      the rest; a text without a newline is one piece. */
  function Split(s: string): (r: seq<string>)
    ensures |r| >= 1
    decreases |s|
  {
    var k := IndexOf(s, '\n');
    if k == |s| then [s] else [s[..k]] + Split(s[k + 1..])
  }

  /** No piece of a split holds a newline. */
  lemma {:induction false} SplitPiecesNewlineFree(s: string)
    ensures forall i :: 0 <= i < |Split(s)| ==> '\n' !in Split(s)[i]
    decreases |s|
  {
    var k := IndexOf(s, '\n');
    var r := Split(s);
    if k < |s| {
      var rest := s[k + 1..];
      SplitPiecesNewlineFree(rest);
      assert r == [s[..k]] + Split(rest);
      forall i | 0 <= i < |r|
        ensures '\n' !in r[i]
      {
        if i == 0 {
          assert forall j :: 0 <= j < k ==> r[0][j] == s[j];
        } else {
          assert r[i] == Split(rest)[i - 1];
        }
      }
    } else {
      assert r == [s];
    }
  }

  /** A text is the part before a newline, the newline, and the rest. */
  lemma CutAtNewline(s: string, k: nat)
    requires k < |s| && s[k] == '\n'
    ensures s == s[..k] + "\n" + s[k + 1..]
  {
    assert s[..k] + "\n" + s[k + 1..] == s[..k] + s[k..];
  }

  /** Joining a piece in front of at least one more. */
  lemma JoinCons(p: string, r: seq<string>)
    requires |r| >= 1
    ensures Join([p] + r) == p + "\n" + Join(r)
  {
    assert ([p] + r)[1..] == r;
  }

  /** Joining the pieces of a split with newlines gives the text back (so a
      trailing newline yields a final empty piece, and the empty string
      yields `[""]`). */
  lemma {:induction false} JoinSplit(s: string)
    ensures Join(Split(s)) == s
    decreases |s|
  {
    var k := IndexOf(s, '\n');
    if k < |s| {
      var rest := s[k + 1..];
      JoinSplit(rest);
      assert Split(s) == [s[..k]] + Split(rest);
      JoinCons(s[..k], Split(rest));
      CutAtNewline(s, k);
    } else {
      assert Split(s) == [s];
    }
  }


  /** Splitting undoes joining, for pieces free of newlines. */
  lemma {:induction false} SplitJoin(parts: seq<string>)
    requires |parts| >= 1
    requires forall i :: 0 <= i < |parts| ==> '\n' !in parts[i]
    ensures Split(Join(parts)) == parts
    decreases |parts|
  {
    if |parts| > 1 {
      var tail := Join(parts[1..]);
      assert Join(parts) == parts[0] + "\n" + tail;
      SplitCons(parts[0], tail);
      SplitJoin(parts[1..]);
      assert parts == [parts[0]] + parts[1..];
    }
  }

  /** A newline-free piece followed by a newline splits off as the first piece. */
  lemma {:induction false} SplitCons(head: string, tail: string)
    requires '\n' !in head
    ensures Split(head + "\n" + tail) == [head] + Split(tail)
  {
    var s := head + "\n" + tail;
    IndexOfAfter(head, tail);
    assert s[..|head|] == head && s[|head| + 1..] == tail;
  }

  /** The first newline of `a + "\n" + b` is the one after `a` when `a` has none. */
  lemma IndexOfAfter(a: string, b: string)
    requires '\n' !in a
    ensures IndexOf(a + "\n" + b, '\n') == |a|
  {
    var s := a + "\n" + b;
    assert s[|a|] == '\n';
    assert forall i :: 0 <= i < |a| ==> s[i] == a[i];
  }

  function Digit(d: nat): (c: char)
    requires d < 10
    ensures '0' <= c <= '9' && c as int - '0' as int == d
  {
    ('0' as int + d) as char
  }

  predicate AllDigits(s: string) {
    forall k :: 0 <= k < |s| ==> '0' <= s[k] <= '9'
  }

  /** The number a string of decimal digits denotes. */
  function DecimalValue(s: string): nat
    requires AllDigits(s)
  {
    if |s| == 0 then 0
    else 10 * DecimalValue(s[..|s| - 1]) + (s[|s| - 1] as int - '0' as int)
  }

  /** `str(n)` for a non-negative int: a non-empty digit string without a
      leading zero that denotes `n`. */
  function NatToString(n: nat): (r: string)
    ensures |r| >= 1 && AllDigits(r)
    ensures DecimalValue(r) == n
    ensures |r| > 1 ==> r[0] != '0'
  {
    if n < 10 then [Digit(n)]
    else
      var p := NatToString(n / 10);
      var r := p + [Digit(n % 10)];
      assert r[..|r| - 1] == p;
      r
  }
}
