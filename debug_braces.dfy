/** The debugging brace counter of debug_braces.py (`count_braces_in_patch`):
    the same line classification as the linter, but two plain totals of
    opening and closing braces over every added line, comments included,
    with no clamping, plus one report entry per added line that holds a
    brace. */
module DebugBraces {
  import opened Text
  import opened PatchLines
  import BraceScan

  /** How one line enters the totals. */
  datatype LineTally = Skipped | Counted(opens: nat, closes: nat)

  /** Every added line inside a diff section is counted, whatever its
      payload looks like, by its `{` and `}` counts. */
  function TallyOf(line: string, inDiff: bool): (t: LineTally)
    ensures t.Counted? <==>
              && inDiff && !IsMetadata(line) && !StartsWith(line, "@@")
              && StartsWith(line, "+") && !StartsWith(line, "+++")
    ensures t.Counted? ==> t.opens == Count(line[1..], '{') && t.closes == Count(line[1..], '}')
  {
    match Classify(line, inDiff)
    case Added(code) => Counted(Count(code, '{'), Count(code, '}'))
    case _ => Skipped
  }

  function OpensOf(t: LineTally): nat {
    if t.Counted? then t.opens else 0
  }

  function ClosesOf(t: LineTally): nat {
    if t.Counted? then t.closes else 0
  }

  /** The tally of line `k` (1-based), read with the flag left by the lines
      before it. */
  function TallyAt(lines: seq<string>, k: nat): LineTally
    requires 1 <= k <= |lines|
  {
    TallyOf(lines[k - 1], HunkSeen(lines[..k - 1]))
  }

  /** The open total after `lines`. */
  function OpenTotal(lines: seq<string>): nat
    decreases |lines|
  {
    if |lines| == 0 then 0
    else OpenTotal(lines[..|lines| - 1]) + OpensOf(TallyAt(lines, |lines|))
  }

  /** The close total after `lines`. */
  function CloseTotal(lines: seq<string>): nat
    decreases |lines|
  {
    if |lines| == 0 then 0
    else CloseTotal(lines[..|lines| - 1]) + ClosesOf(TallyAt(lines, |lines|))
  }

  /** One printed line of the report: its number, its stripped payload and
      its brace counts. */
  datatype BraceEntry = BraceEntry(lineNum: nat, text: string, opens: nat, closes: nat)

  /** Line `k` is counted and holds at least one brace. */
  predicate ShowsBraces(lines: seq<string>, k: nat)
    requires 1 <= k <= |lines|
  {
    var t := TallyAt(lines, k);
    t.Counted? && (t.opens > 0 || t.closes > 0)
  }

  /** The entry printed for line `k`. */
  function EntryAt(lines: seq<string>, k: nat): BraceEntry
    requires 1 <= k <= |lines| && ShowsBraces(lines, k)
  {
    var t := TallyAt(lines, k);
    BraceEntry(k, Strip(lines[k - 1][1..]), t.opens, t.closes)
  }

  /** The report entries after `lines`, in line order. */
  function Entries(lines: seq<string>): seq<BraceEntry>
    decreases |lines|
  {
    if |lines| == 0 then []
    else
      Entries(lines[..|lines| - 1])
      + (if ShowsBraces(lines, |lines|) then [EntryAt(lines, |lines|)] else [])
  }

  /** The whole outcome of one run: both totals, their difference, the
      verdict, and the entries. */
  datatype BraceReport =
    BraceReport(openTotal: nat, closeTotal: nat, balance: int, balanced: bool, entries: seq<BraceEntry>)

  /** Line `i + 1` is one step from the state after the first `i` lines. */
  lemma {:induction false} PrefixStep(lines: seq<string>, i: nat)
    requires i < |lines|
    ensures TallyAt(lines[..i + 1], i + 1) == TallyOf(lines[i], HunkSeen(lines[..i]))
    ensures OpenTotal(lines[..i + 1]) == OpenTotal(lines[..i]) + OpensOf(TallyOf(lines[i], HunkSeen(lines[..i])))
    ensures CloseTotal(lines[..i + 1]) == CloseTotal(lines[..i]) + ClosesOf(TallyOf(lines[i], HunkSeen(lines[..i])))
    ensures HunkSeen(lines[..i + 1]) == (HunkSeen(lines[..i]) || OpensHunk(lines[i]))
  {
    assert lines[..i + 1][..i] == lines[..i];
  }

  /** The entries after line `i + 1`: those before it, then the entry for
      that line when it is counted and holds a brace. */
  lemma {:induction false} EntriesStep(lines: seq<string>, i: nat)
    requires i < |lines|
    ensures var t := TallyOf(lines[i], HunkSeen(lines[..i]));
            Entries(lines[..i + 1]) ==
              Entries(lines[..i])
              + (if t.Counted? && (t.opens > 0 || t.closes > 0)
                 then [BraceEntry(i + 1, Strip(lines[i][1..]), t.opens, t.closes)] else [])
  {
    assert lines[..i + 1][..i] == lines[..i];
  }

  /** The whole effect of line `i + 1`, case by case in the order the
      script tests them: every line but a counted one leaves the totals and
      the entries alone, and a counted one adds its counts and, when it holds
      a brace, its entry. */
  lemma {:induction false} LineStep(lines: seq<string>, i: nat)
    requires i < |lines|
    ensures HunkSeen(lines[..i + 1]) == (HunkSeen(lines[..i]) || OpensHunk(lines[i]))
    ensures var line := lines[i];
            !(&& HunkSeen(lines[..i]) && !IsMetadata(line) && !StartsWith(line, "@@")
              && StartsWith(line, "+") && !StartsWith(line, "+++")) ==>
              && OpenTotal(lines[..i + 1]) == OpenTotal(lines[..i])
              && CloseTotal(lines[..i + 1]) == CloseTotal(lines[..i])
              && Entries(lines[..i + 1]) == Entries(lines[..i])
    ensures var line := lines[i];
            (&& HunkSeen(lines[..i]) && !IsMetadata(line) && !StartsWith(line, "@@")
             && StartsWith(line, "+") && !StartsWith(line, "+++")) ==>
              var code := line[1..];
              var o, c := Count(code, '{'), Count(code, '}');
              && OpenTotal(lines[..i + 1]) == OpenTotal(lines[..i]) + o
              && CloseTotal(lines[..i + 1]) == CloseTotal(lines[..i]) + c
              && Entries(lines[..i + 1]) ==
                   Entries(lines[..i]) + (if o > 0 || c > 0 then [BraceEntry(i + 1, Strip(code), o, c)] else [])
  {
    PrefixStep(lines, i);
    EntriesStep(lines, i);
  }

  /** One turn of the loop of `count_braces_in_patch`: the state for the
      lines before `i` becomes the state for the lines up to `i`. */
  method ScanLine(lines: seq<string>, i: nat, inDiffSection: bool, openBraces: nat,
                  closeBraces: nat, entries: seq<BraceEntry>)
    returns (inDiff': bool, open': nat, close': nat, entries': seq<BraceEntry>)
    requires i < |lines|
    requires inDiffSection == HunkSeen(lines[..i])
    requires openBraces == OpenTotal(lines[..i]) && closeBraces == CloseTotal(lines[..i])
    requires entries == Entries(lines[..i])
    ensures inDiff' == HunkSeen(lines[..i + 1])
    ensures open' == OpenTotal(lines[..i + 1]) && close' == CloseTotal(lines[..i + 1])
    ensures entries' == Entries(lines[..i + 1])
  {
    var line, lineNum := lines[i], i + 1;
    LineStep(lines, i);
    inDiff', open', close', entries' := inDiffSection, openBraces, closeBraces, entries;
    if StartsWithAny(line, MetadataPrefixes) {
      // metadata: skipped
    } else if StartsWith(line, "@@") {
      inDiff' := true;
    } else if !inDiffSection {
      // before the first hunk: skipped
    } else if StartsWith(line, "+") && !StartsWith(line, "+++") {
      var codeLine := line[1..];
      var lineOpen := Count(codeLine, '{');
      var lineClose := Count(codeLine, '}');
      if lineOpen > 0 || lineClose > 0 {
        entries' := entries + [BraceEntry(lineNum, Strip(codeLine), lineOpen, lineClose)];
      }
      open' := openBraces + lineOpen;
      close' := closeBraces + lineClose;
    }
  }

  /** `count_braces_in_patch`, given the patch text. */
  method CountBracesInPatch(content: string) returns (report: BraceReport)
    ensures report.openTotal == OpenTotal(Split(content))
    ensures report.closeTotal == CloseTotal(Split(content))
    ensures report.balance == report.openTotal - report.closeTotal
    ensures report.balanced <==> report.openTotal == report.closeTotal
    ensures report.entries == Entries(Split(content))
  {
    var lines := Split(content);
    var openBraces: nat := 0;
    var closeBraces: nat := 0;
    var inDiffSection := false;
    var entries := [];
    var i := 0;
    while i < |lines|
      invariant 0 <= i <= |lines|
      invariant inDiffSection == HunkSeen(lines[..i])
      invariant openBraces == OpenTotal(lines[..i])
      invariant closeBraces == CloseTotal(lines[..i])
      invariant entries == Entries(lines[..i])
    {
      inDiffSection, openBraces, closeBraces, entries :=
        ScanLine(lines, i, inDiffSection, openBraces, closeBraces, entries);
      i := i + 1;
    }
    assert lines[..i] == lines;
    var balance: int := openBraces as int - closeBraces as int;
    report := BraceReport(openBraces, closeBraces, balance, openBraces == closeBraces, entries);
  }

  // ---------------------------------------------------------------------
  // Properties of the report

  /** Neither total ever decreases from one line to the next. */
  lemma {:induction false} TotalsMonotone(lines: seq<string>, i: nat, j: nat)
    requires i <= j <= |lines|
    ensures OpenTotal(lines[..i]) <= OpenTotal(lines[..j])
    ensures CloseTotal(lines[..i]) <= CloseTotal(lines[..j])
    decreases j
  {
    if i < j {
      TotalsMonotone(lines, i, j - 1);
      PrefixStep(lines, j - 1);
    }
  }

  function SumOpens(es: seq<BraceEntry>): nat
    decreases |es|
  {
    if |es| == 0 then 0 else SumOpens(es[..|es| - 1]) + es[|es| - 1].opens
  }

  function SumCloses(es: seq<BraceEntry>): nat
    decreases |es|
  {
    if |es| == 0 then 0 else SumCloses(es[..|es| - 1]) + es[|es| - 1].closes
  }

  /** The totals are the sums of the printed per-line counts: a counted line
      without a brace adds nothing, and every other counted line is printed. */
  lemma {:induction false} TotalsAreEntrySums(lines: seq<string>)
    ensures OpenTotal(lines) == SumOpens(Entries(lines))
    ensures CloseTotal(lines) == SumCloses(Entries(lines))
    decreases |lines|
  {
    if |lines| > 0 {
      var n := |lines|;
      var init := lines[..n - 1];
      TotalsAreEntrySums(init);
      var es := Entries(init);
      if ShowsBraces(lines, n) {
        assert Entries(lines) == es + [EntryAt(lines, n)];
        SumsAppend(es, EntryAt(lines, n));
      } else {
        assert Entries(lines) == es;
      }
    }
  }

  /** Appending one entry adds its counts to both sums. */
  lemma SumsAppend(es: seq<BraceEntry>, e: BraceEntry)
    ensures SumOpens(es + [e]) == SumOpens(es) + e.opens
    ensures SumCloses(es + [e]) == SumCloses(es) + e.closes
  {
    var es' := es + [e];
    assert es'[..|es'| - 1] == es && es'[|es'| - 1] == e;
  }

  /** For a line before the last, the prefix without the last line reads
      it the same way. */
  lemma {:induction false} AgreesWithPrefix(lines: seq<string>, k: nat)
    requires 1 <= k < |lines|
    ensures TallyAt(lines[..|lines| - 1], k) == TallyAt(lines, k)
    ensures lines[..|lines| - 1][k - 1] == lines[k - 1]
    ensures ShowsBraces(lines[..|lines| - 1], k) == ShowsBraces(lines, k)
    ensures ShowsBraces(lines, k) ==> EntryAt(lines[..|lines| - 1], k) == EntryAt(lines, k)
  {
    var init := lines[..|lines| - 1];
    assert init[..k - 1] == lines[..k - 1];
  }

  /** Every entry is the one printed for a counted line holding a brace. */
  lemma {:induction false} EntriesAreShownLines(lines: seq<string>)
    ensures forall i :: 0 <= i < |Entries(lines)| ==>
              && 1 <= Entries(lines)[i].lineNum <= |lines|
              && ShowsBraces(lines, Entries(lines)[i].lineNum)
              && Entries(lines)[i] == EntryAt(lines, Entries(lines)[i].lineNum)
    decreases |lines|
  {
    if |lines| > 0 {
      var n := |lines|;
      var init := lines[..n - 1];
      EntriesAreShownLines(init);
      var es := Entries(init);
      forall i | 0 <= i < |es|
        ensures ShowsBraces(lines, es[i].lineNum) && es[i] == EntryAt(lines, es[i].lineNum)
      {
        AgreesWithPrefix(lines, es[i].lineNum);
      }
    }
  }

  /** Every counted line holding a brace has its entry. */
  lemma {:induction false} ShownLinesHaveEntries(lines: seq<string>)
    ensures forall k :: 1 <= k <= |lines| && ShowsBraces(lines, k) ==> EntryAt(lines, k) in Entries(lines)
    decreases |lines|
  {
    if |lines| > 0 {
      var n := |lines|;
      var init := lines[..n - 1];
      ShownLinesHaveEntries(init);
      var tail := if ShowsBraces(lines, n) then [EntryAt(lines, n)] else [];
      assert Entries(lines) == Entries(init) + tail;
      forall k | 1 <= k <= n && ShowsBraces(lines, k)
        ensures EntryAt(lines, k) in Entries(lines)
      {
        if k < n {
          AgreesWithPrefix(lines, k);
          assert EntryAt(init, k) in Entries(init);
        } else {
          assert tail == [EntryAt(lines, n)];
        }
      }
    }
  }

  /** The entries come in strictly increasing line order. */
  lemma {:induction false} EntriesInLineOrder(lines: seq<string>)
    ensures forall i, j :: 0 <= i < j < |Entries(lines)| ==>
              Entries(lines)[i].lineNum < Entries(lines)[j].lineNum
    decreases |lines|
  {
    if |lines| > 0 {
      var init := lines[..|lines| - 1];
      EntriesInLineOrder(init);
      EntriesAreShownLines(init);
    }
  }

  // ---------------------------------------------------------------------
  // Against the linter's brace scanner

  /** An added-looking line whose payload the linter takes for a comment. */
  predicate CommentLikeAdd(line: string) {
    StartsWith(line, "+") && !StartsWith(line, "+++") && BraceScan.IsCommentLike(line[1..])
  }

  /** No line is an added line the linter would skip as a comment. */
  predicate NoCommentAdds(lines: seq<string>) {
    forall k :: 0 <= k < |lines| ==> !CommentLikeAdd(lines[k])
  }

  /** A comment-like added line is where the two scripts part: the debug
      totals take its braces, the linter's counter does not move. */
  lemma {:induction false} CommentLineCountedOnlyHere(line: string, inDiff: bool)
    requires CommentLikeAdd(line)
    ensures inDiff ==> TallyOf(line, inDiff) == Counted(Count(line[1..], '{'), Count(line[1..], '}'))
    ensures BraceScan.LineCountOf(line, inDiff) == BraceScan.Ignored
  {
    AddedLineIsNotMetadata(line);
  }

  /** On a line that does not look like a comment, the linter's delta is the
      debug opens minus closes. */
  lemma {:induction false} LineAgrees(line: string, inDiff: bool)
    requires !CommentLikeAdd(line)
    ensures var c := BraceScan.LineCountOf(line, inDiff);
            (if c.Braces? then c.delta else 0) ==
              OpensOf(TallyOf(line, inDiff)) - ClosesOf(TallyOf(line, inDiff))
  {
  }

  /** When no counted line looks like a comment, the two scripts count the
      same lines the same way: the linter's unclamped sum is the debug
      balance. */
  lemma {:induction false} NetIsBalance(lines: seq<string>)
    requires NoCommentAdds(lines)
    ensures BraceScan.Net(BraceScan.LineCounts(lines)) == OpenTotal(lines) - CloseTotal(lines)
    decreases |lines|
  {
    if |lines| > 0 {
      var n := |lines|;
      var init := lines[..n - 1];
      var last, inDiff := lines[n - 1], HunkSeen(init);
      assert !CommentLikeAdd(last);
      assert forall k :: 0 <= k < n - 1 ==> init[k] == lines[k];
      NetIsBalance(init);
      var c := BraceScan.LineCountOf(last, inDiff);
      var cs := BraceScan.LineCounts(lines);
      assert cs == BraceScan.LineCounts(init) + [c];
      assert BraceScan.Net(cs) == BraceScan.Net(BraceScan.LineCounts(init)) + (if c.Braces? then c.delta else 0) by {
        assert cs[..n - 1] == BraceScan.LineCounts(init) && cs[n - 1] == c;
      }
      LineAgrees(last, inDiff);
    }
  }

  /** The linter's clamped counter never ends below the debug balance. */
  lemma {:induction false} CounterNotBelowBalance(lines: seq<string>)
    requires NoCommentAdds(lines)
    ensures BraceScan.Run(BraceScan.LineCounts(lines)).open >= OpenTotal(lines) - CloseTotal(lines)
  {
    NetIsBalance(lines);
    BraceScan.ClampOnlyRaises(BraceScan.LineCounts(lines));
  }

  /** The debug balance can be negative: a hunk marker followed by one
      added line whose only brace is `}` gives balance -1. */
  lemma {:induction false} NegativeBalanceAfterHunk(h: string, a: string)
    requires OpensHunk(h)
    requires StartsWith(a, "+") && !StartsWith(a, "+++")
    requires Count(a[1..], '{') == 0 && Count(a[1..], '}') == 1
    ensures OpenTotal([h, a]) as int - CloseTotal([h, a]) as int == -1
  {
    var lines := [h, a];
    AddedLineIsNotMetadata(a);
    assert TallyOf(h, false) == Skipped;
    assert TallyOf(a, true) == Counted(0, 1);
    PrefixStep(lines, 0);
    PrefixStep(lines, 1);
    assert lines[..0] == [] && lines[..1] == [h] && lines[..2] == lines;
  }

  /** On the same lines the linter reports the `}` and clamps its counter
      back to 0, so the counter stays above the debug balance. */
  lemma {:induction false} ClampedAfterHunk(h: string, a: string)
    requires OpensHunk(h)
    requires StartsWith(a, "+") && !StartsWith(a, "+++") && !BraceScan.IsCommentLike(a[1..])
    requires Count(a[1..], '{') == 0 && Count(a[1..], '}') == 1
    ensures BraceScan.Run(BraceScan.LineCounts([h, a])).open == 0
  {
    var lines := [h, a];
    AddedLineIsNotMetadata(a);
    assert BraceScan.LineCountOf(h, false) == BraceScan.Ignored;
    assert BraceScan.LineCountOf(a, true) == BraceScan.Braces(-1);
    assert lines[..0] == [] && lines[..1] == [h];
    assert !HunkSeen([]);
    assert HunkSeen([h]);
    BraceScan.LineCountsAt(lines, 0);
    BraceScan.LineCountsAt(lines, 1);
    var cs := [BraceScan.Ignored, BraceScan.Braces(-1)];
    assert BraceScan.LineCounts(lines) == cs;
    assert cs[..1] == [BraceScan.Ignored] && cs[..1][..0] == [];
    assert BraceScan.Run(cs[..1]) == BraceScan.Start;
  }

  /** For instance the lines `@@` and `+}`: balance -1, linter counter 0. */
  lemma NegativeBalanceExample()
    ensures OpenTotal(["@@", "+}"]) as int - CloseTotal(["@@", "+}"]) as int == -1
    ensures BraceScan.Run(BraceScan.LineCounts(["@@", "+}"])).open == 0
  {
    AtLineOpensHunk("@@");
    var code := "+}"[1..];
    assert code == "}";
    assert Strip(code) == "}";
    NegativeBalanceAfterHunk("@@", "+}");
    ClampedAfterHunk("@@", "+}");
  }

  /** A debug run that reports "balanced" and never has more closes than
      opens along the way means the linter's brace check passes, as long as
      no counted line looks like a comment. */
  lemma {:induction false} BalancedReportMeansClean(lines: seq<string>)
    requires NoCommentAdds(lines)
    requires forall j :: 0 <= j <= |lines| ==> CloseTotal(lines[..j]) <= OpenTotal(lines[..j])
    requires OpenTotal(lines) == CloseTotal(lines)
    ensures BraceScan.BraceIssues(lines) == []
  {
    var cs := BraceScan.LineCounts(lines);
    forall j | 0 <= j <= |lines|
      ensures BraceScan.Net(cs[..j]) >= 0
    {
      BraceScan.LineCountsPrefix(lines, j);
      assert forall k :: 0 <= k < j ==> lines[..j][k] == lines[k];
      NetIsBalance(lines[..j]);
    }
    NetIsBalance(lines);
    BraceScan.BalancedAddsAreClean(lines);
  }
}
