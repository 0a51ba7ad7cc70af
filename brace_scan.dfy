/** The brace scanner of the patch linter (`check_brace_balance` in
    scripts/validate_patches.py:12-57): a running counter over the braces of
    the added, non-comment lines of every hunk, clamped to zero with an issue
    whenever it would go negative, and one end-of-file issue for whatever is
    left open.

    The specification has two layers. The line layer says, for each line,
    whether the scanner counts it and by how much (`LineCounts`); it depends
    on the diff-section flag but never on the counter. The counter layer
    (`Run`) folds those per-line counts into the counter and the issues. */
module BraceScan {
  import opened Text
  import opened Issues
  import opened PatchLines

  // ---------------------------------------------------------------------
  // Line layer

  // The heuristic comment test on an added line's payload: after stripping,
  // it starts with two slashes, a star, or a slash and a star.
  predicate IsCommentLike(code: string) {
    var t := Strip(code);
    StartsWith(t, "//") || StartsWith(t, "*") || StartsWith(t, "/*")
  }

  /** What one line contributes to the counter. */
  datatype LineCount = Ignored | Braces(delta: int)

  /** Only an added line (`+` but not `+++`, not metadata, inside a diff
      section) whose stripped payload does not look like a comment (see `IsCommentLike`)
      is counted, and it moves the counter by the payload's `{` count minus
      its `}` count. */
  function LineCountOf(line: string, inDiff: bool): (c: LineCount)
    ensures c.Braces? <==>
              && inDiff && !IsMetadata(line) && !StartsWith(line, "@@")
              && StartsWith(line, "+") && !StartsWith(line, "+++")
              && !IsCommentLike(line[1..])
    ensures c.Braces? ==> c.delta == Count(line[1..], '{') - Count(line[1..], '}')
  {
    match Classify(line, inDiff)
    case Added(code) =>
      if IsCommentLike(code) then Ignored else Braces(Count(code, '{') - Count(code, '}'))
    case _ => Ignored
  }

  /** The per-line counts of `lines`, each line read with the flag left by
      the lines before it. */
  function LineCounts(lines: seq<string>): (cs: seq<LineCount>)
    ensures |cs| == |lines|
    decreases |lines|
  {
    if |lines| == 0 then []
    else
      var init := lines[..|lines| - 1];
      LineCounts(init) + [LineCountOf(lines[|lines| - 1], HunkSeen(init))]
  }

  /** Line `k` (0-based) is counted as it would be on its own, given whether
      a hunk opened before it. */
  lemma {:induction false} LineCountsAt(lines: seq<string>, k: nat)
    requires k < |lines|
    ensures LineCounts(lines)[k] == LineCountOf(lines[k], HunkSeen(lines[..k]))
    decreases |lines|
  {
    var n := |lines|;
    var init := lines[..n - 1];
    assert LineCounts(lines) == LineCounts(init) + [LineCountOf(lines[n - 1], HunkSeen(init))];
    if k < n - 1 {
      LineCountsAt(init, k);
      assert init[..k] == lines[..k] && init[k] == lines[k];
    } else {
      assert init == lines[..k];
    }
  }

  /** The counts of a prefix are the prefix of the counts. */
  lemma {:induction false} LineCountsPrefix(lines: seq<string>, j: nat)
    requires j <= |lines|
    ensures LineCounts(lines[..j]) == LineCounts(lines)[..j]
    decreases |lines|
  {
    if j < |lines| {
      var init := lines[..|lines| - 1];
      LineCountsPrefix(init, j);
      assert init[..j] == lines[..j];
    } else {
      assert lines[..j] == lines;
    }
  }

  /** A metadata line neither moves the counter nor sets the diff-section
      flag, wherever it stands, inside a hunk too. */
  lemma {:induction false} MetadataLineIsInert(lines: seq<string>, k: nat)
    requires k < |lines| && IsMetadata(lines[k])
    ensures LineCounts(lines)[k] == Ignored
    ensures HunkSeen(lines[..k + 1]) == HunkSeen(lines[..k])
  {
    assert LineCounts(lines)[k] == Ignored by {
      LineCountsAt(lines, k);
    }
    assert HunkSeen(lines[..k + 1]) == HunkSeen(lines[..k]) by {
      var prefix := lines[..k + 1];
      assert prefix[..k] == lines[..k] && prefix[k] == lines[k];
      assert !OpensHunk(lines[k]);
    }
  }

  /** Before the first `@@` line, every line is ignored. */
  lemma {:induction false} IgnoredBeforeFirstHunk(lines: seq<string>)
    requires !HunkSeen(lines)
    ensures forall k :: 0 <= k < |lines| ==> LineCounts(lines)[k] == Ignored
    decreases |lines|
  {
    if |lines| > 0 {
      IgnoredBeforeFirstHunk(lines[..|lines| - 1]);
    }
  }

  // ---------------------------------------------------------------------
  // Counter layer

  /** The counter and the issues found so far. */
  datatype Counter = Counter(open: int, issues: seq<Issue>)

  const Start := Counter(0, [])

  /** One line's effect on the counter: an ignored line leaves it alone; a
      counted one adds its delta and, if the sum is negative, is reported as
      an unmatched close and the counter restarts at 0. */
  function Tick(c: Counter, lc: LineCount, lineNum: nat): Counter {
    match lc
    case Ignored => c
    case Braces(d) =>
      if c.open + d < 0 then Counter(0, c.issues + [UnmatchedClose(lineNum)])
      else Counter(c.open + d, c.issues)
  }

  /** From a non-negative counter, one line keeps it non-negative; it adds
      an issue, for this very line, exactly when a counted line would take the
      counter below zero, and otherwise moves the counter by the line's delta.
      An ignored line changes nothing. */
  lemma TickEffect(c: Counter, lc: LineCount, lineNum: nat)
    requires c.open >= 0
    ensures Tick(c, lc, lineNum).open >= 0
    ensures Tick(c, lc, lineNum).issues == c.issues
            || Tick(c, lc, lineNum).issues == c.issues + [UnmatchedClose(lineNum)]
    ensures Tick(c, lc, lineNum).issues != c.issues <==> lc.Braces? && c.open + lc.delta < 0
    ensures Tick(c, lc, lineNum).issues == c.issues && lc.Braces? ==>
              Tick(c, lc, lineNum).open == c.open + lc.delta
    ensures Tick(c, lc, lineNum).issues != c.issues ==> Tick(c, lc, lineNum).open == 0
    ensures lc.Ignored? ==> Tick(c, lc, lineNum) == c
  {
    if lc.Braces? && c.open + lc.delta < 0 {
      assert |Tick(c, lc, lineNum).issues| == |c.issues| + 1;
    }
  }

  /** The counter after the counts `cs` of lines 1..|cs|. It is never
      negative. */
  function Run(cs: seq<LineCount>): (c: Counter)
    ensures c.open >= 0
    decreases |cs|
  {
    if |cs| == 0 then Start
    else Tick(Run(cs[..|cs| - 1]), cs[|cs| - 1], |cs|)
  }

  /** The plain, unclamped sum of the deltas. */
  function Net(cs: seq<LineCount>): int
    decreases |cs|
  {
    if |cs| == 0 then 0
    else Net(cs[..|cs| - 1]) + (if cs[|cs| - 1].Braces? then cs[|cs| - 1].delta else 0)
  }

  /** The issues are unmatched closes, at line numbers in range and strictly
      increasing. */
  lemma {:induction false} RunIssuesShape(cs: seq<LineCount>)
    ensures forall i :: 0 <= i < |Run(cs).issues| ==>
              Run(cs).issues[i].UnmatchedClose? && 1 <= Run(cs).issues[i].line <= |cs|
    ensures forall i, j :: 0 <= i < j < |Run(cs).issues| ==>
              Run(cs).issues[i].line < Run(cs).issues[j].line
    decreases |cs|
  {
    if |cs| > 0 {
      RunIssuesShape(cs[..|cs| - 1]);
    }
  }

  /** Line `k` drives the counter below zero: it is counted, and its delta
      exceeds the counter the lines before it left. */
  predicate DrivesNegative(cs: seq<LineCount>, k: nat)
    requires 1 <= k <= |cs|
  {
    cs[k - 1].Braces? && Run(cs[..k - 1]).open + cs[k - 1].delta < 0
  }

  /** An unmatched-close issue names line `k` exactly when line `k` drives the
      counter negative, and right after that line the counter is 0. */
  lemma {:induction false} UnmatchedCloseExactly(cs: seq<LineCount>, k: nat)
    ensures UnmatchedClose(k) in Run(cs).issues <==> 1 <= k <= |cs| && DrivesNegative(cs, k)
    ensures 1 <= k <= |cs| && DrivesNegative(cs, k) ==> Run(cs[..k]).open == 0
    decreases |cs|
  {
    if |cs| > 0 {
      var n := |cs|;
      var init := cs[..n - 1];
      UnmatchedCloseExactly(init, k);
      RunIssuesShape(init);
      assert UnmatchedClose(n) !in Run(init).issues;
      if 1 <= k < n {
        assert init[..k - 1] == cs[..k - 1];
        assert init[..k] == cs[..k];
      }
      assert cs[..n] == cs;
    }
  }

  /** Clamping only ever raises the counter above the plain sum. */
  lemma {:induction false} ClampOnlyRaises(cs: seq<LineCount>)
    ensures Run(cs).open >= Net(cs)
    decreases |cs|
  {
    if |cs| > 0 {
      ClampOnlyRaises(cs[..|cs| - 1]);
    }
  }

  /** No unmatched close is reported exactly when no prefix of the lines
      closes more braces than it opened; the counter is then the plain sum. */
  lemma {:induction false} CleanIffPrefixesNonNegative(cs: seq<LineCount>)
    ensures Run(cs).issues == [] <==> forall j :: 0 <= j <= |cs| ==> Net(cs[..j]) >= 0
    ensures Run(cs).issues == [] ==> Run(cs).open == Net(cs)
    decreases |cs|
  {
    var n := |cs|;
    if n > 0 {
      var init := cs[..n - 1];
      CleanIffPrefixesNonNegative(init);
      assert forall j :: 0 <= j <= n - 1 ==> init[..j] == cs[..j];
      assert cs[..n] == cs;
    } else {
      assert cs[..0] == cs;
    }
  }

  /** Nothing counted, nothing reported. */
  lemma {:induction false} AllIgnoredRunsStill(cs: seq<LineCount>)
    requires forall k :: 0 <= k < |cs| ==> cs[k] == Ignored
    ensures Run(cs) == Start
    decreases |cs|
  {
    if |cs| > 0 {
      AllIgnoredRunsStill(cs[..|cs| - 1]);
    }
  }

  // ---------------------------------------------------------------------
  // The check

  /** What `check_brace_balance` returns for `lines`: the loop's issues and,
      last, at most one end-of-file issue carrying the final counter, given
      exactly when the counter is positive and a hunk was seen. */
  function BraceIssues(lines: seq<string>): (r: seq<Issue>)
    ensures (exists i :: 0 <= i < |r| && r[i].UnclosedBraces?) <==>
              Run(LineCounts(lines)).open > 0 && HunkSeen(lines)
    ensures forall i :: 0 <= i < |r| && r[i].UnclosedBraces? ==>
              i == |r| - 1 && r[i].count == Run(LineCounts(lines)).open
    ensures forall i :: 0 <= i < |r| && !r[i].UnclosedBraces? ==> r[i].UnmatchedClose?
  {
    var c := Run(LineCounts(lines));
    RunIssuesShape(LineCounts(lines));
    if c.open > 0 && HunkSeen(lines) then
      var r := c.issues + [UnclosedBraces(c.open)];
      assert r[|r| - 1].UnclosedBraces?;
      r
    else c.issues
  }

  /** The returned list names line `k` as an unmatched close exactly when
      line `k` drives the counter negative. */
  lemma UnmatchedInBraceIssues(lines: seq<string>, k: nat)
    ensures UnmatchedClose(k) in BraceIssues(lines) <==>
              1 <= k <= |lines| && DrivesNegative(LineCounts(lines), k)
  {
    UnmatchedKeptInBraceIssues(lines, k);
    UnmatchedCloseExactly(LineCounts(lines), k);
  }

  /** The end-of-file entry adds no unmatched close to the loop's issues. */
  lemma UnmatchedKeptInBraceIssues(lines: seq<string>, k: nat)
    ensures UnmatchedClose(k) in BraceIssues(lines) <==> UnmatchedClose(k) in Run(LineCounts(lines)).issues
  {
    var c := Run(LineCounts(lines));
    if c.open > 0 && HunkSeen(lines) {
      var r := c.issues + [UnclosedBraces(c.open)];
      assert BraceIssues(lines) == r;
      assert UnmatchedClose(k) in r <==> UnmatchedClose(k) in c.issues;
    }
  }

  /** The loop's state after line `i + 1` is one step from the state before it. */
  lemma {:induction false} PrefixStep(lines: seq<string>, i: nat)
    requires i < |lines|
    ensures LineCounts(lines[..i + 1]) ==
              LineCounts(lines[..i]) + [LineCountOf(lines[i], HunkSeen(lines[..i]))]
    ensures HunkSeen(lines[..i + 1]) == (HunkSeen(lines[..i]) || OpensHunk(lines[i]))
    ensures Run(LineCounts(lines[..i + 1])) ==
              Tick(Run(LineCounts(lines[..i])), LineCountOf(lines[i], HunkSeen(lines[..i])), i + 1)
  {
    assert lines[..i + 1][..i] == lines[..i];
    var cs := LineCounts(lines[..i + 1]);
    assert cs[..i] == LineCounts(lines[..i]);
  }

  /** `check_brace_balance(content)`. */
  method CheckBraceBalance(content: string) returns (issues: seq<Issue>)
    ensures issues == BraceIssues(Split(content))
  {
    var lines := Split(content);
    var openBraces: int := 0;
    var inDiffSection := false;
    issues := [];
    var i := 0;
    while i < |lines|
      invariant 0 <= i <= |lines|
      invariant inDiffSection == HunkSeen(lines[..i])
      invariant Run(LineCounts(lines[..i])) == Counter(openBraces, issues)
    {
      var line, lineNum := lines[i], i + 1;
      PrefixStep(lines, i);
      if StartsWithAny(line, MetadataPrefixes) {
        // metadata: skipped
      } else if StartsWith(line, "@@") {
        inDiffSection := true;
      } else if !inDiffSection {
        // before the first hunk: skipped
      } else if StartsWith(line, "+") && !StartsWith(line, "+++") {
        var codeLine := line[1..];
        var stripped := Strip(codeLine);
        if StartsWith(stripped, "//") || StartsWith(stripped, "*") || StartsWith(stripped, "/*") {
          // comment-like: skipped
        } else {
          var lineOpen := Count(codeLine, '{');
          var lineClose := Count(codeLine, '}');
          openBraces := openBraces + lineOpen;
          openBraces := openBraces - lineClose;
          if openBraces < 0 {
            issues := issues + [UnmatchedClose(lineNum)];
            openBraces := 0;
          }
        }
      }
      i := i + 1;
    }
    assert lines[..i] == lines;
    if openBraces > 0 && inDiffSection {
      issues := issues + [UnclosedBraces(openBraces)];
    }
  }

  // ---------------------------------------------------------------------
  // Properties of the check, stated over the lines

  /** A patch without any `@@` line gets no brace issue at all. */
  lemma {:induction false} NoHunkNoBraceIssues(lines: seq<string>)
    requires !HunkSeen(lines)
    ensures BraceIssues(lines) == []
  {
    IgnoredBeforeFirstHunk(lines);
    AllIgnoredRunsStill(LineCounts(lines));
  }

  /** Balanced added code (no prefix closes more than it opened, and the
      totals agree) passes the brace check. */
  lemma {:induction false} BalancedAddsAreClean(lines: seq<string>)
    requires forall j :: 0 <= j <= |lines| ==> Net(LineCounts(lines)[..j]) >= 0
    requires Net(LineCounts(lines)) == 0
    ensures BraceIssues(lines) == []
  {
    CleanIffPrefixesNonNegative(LineCounts(lines));
  }
}
