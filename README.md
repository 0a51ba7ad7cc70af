# Patch linter, modelled in Dafny

This project models the patch linter of the browser's patch set and proves
properties about it. The linter is `scripts/validate_patches.py`, together
with `debug_braces.py`, the companion script that counts braces for
debugging.

The linter splits the text of each unified-diff patch on `'\n'` and runs
three checks on it:

- a whole-document format check: the `From ` header, the `---`/`+++`
  markers and the `@@` hunks;
- a brace scanner: a running counter of `{` minus `}` over the added,
  non-comment lines of the file's hunks, clamped at zero with an issue each
  time it would go negative, plus one end-of-file issue for braces left
  open;
- a branding check, which runs only on files whose name mentions
  "branding".

A file is valid when the three issue lists are all empty. A run succeeds
when the patch directory exists, holds at least one patch file, and every
file is valid.

The debugging script classifies lines the same way. It keeps two plain
totals, opening and closing braces, over every added line, comments
included. It never clamps. It reports one entry per added line that holds a
brace.

Modules:

- `Text` (text.dfy): the Python string operations the scripts use, over
  `seq<char>`: `startswith`, `in`, `count`, `strip`, `lower`,
  `split('\n')` and `str(n)`. Each comes with a lemma tying it to a
  position-wise definition.
- `Issues` (issues.dfy): the issue kinds and the exact message each one is
  printed as.
- `PatchLines` (patch_lines.dfy): the line classification both scripts
  share, and the diff-section flag.
- `BraceScan` (brace_scan.dfy): `check_brace_balance`. Its model
  has two layers: a per-line count, which depends on the flag, and a
  counter fold over those counts.
- `Validator` (validator.dfy): `check_patch_format`,
  `check_branding_consistency`, `validate_patch_file` and the counting in
  `main`.
- `DebugBraces` (debug_braces.dfy): `count_braces_in_patch`, and how its
  totals relate to the linter's counter.

Each loop of the scripts is a `method` with a `while` loop. Its invariants
tie the loop state to a specification function over the lines already read,
and its `ensures` clauses tie the result to that function over all the
lines. Lemmas prove what the scripts promise about those functions.

Three behaviours of the code worth knowing:

- The branding check examines every line that starts with `+`. That
  includes `+++` file markers and lines before the first `@@`. It does no
  comment skipping, and it ignores the diff-section flag.
- Removed lines and context lines inside a hunk are handled identically
  (ignored), so one kind, `Unscanned`, stands for both.
- An unreadable file is not recorded as an issue. `validate_patch_file`
  just returns `False` for it. That path is not part of the model (see
  below).

Two consequences of the code as written are stated in the contracts:

- An added line whose code starts with `++` (so the line starts with `+++`)
  is taken for a file marker, and the brace scanner never counts it
  (`BraceScan.LineCountOf`).
- A `+++` marker line that names an old brand and does not contain
  `PrivacyAgent` is a branding violation
  (`Validator.MarkerLinesAreBrandChecked`).

## Model

| member | source | states |
|---|---|---|
| Text.StartsWithIffPrefix | scripts/validate_patches.py:20 | the character-by-character `startswith` holds exactly when the prefix is no longer than the string and equals its leading slice |
| Text.StartsWithAnyIffSome | scripts/validate_patches.py:20 | `startswith` on a tuple of prefixes holds exactly when one of the prefixes matches |
| Text.ContainsIffOccurs | scripts/validate_patches.py:68 | the scanning substring test holds exactly when the needle occurs at some position |
| Text.ContainsAnyIffSome | scripts/validate_patches.py:87 | `any(term in line for term in terms)` holds exactly when one of the terms occurs |
| Text.Count | scripts/validate_patches.py:43-44 | `count` of one character is that character's multiplicity in the string, and never more than the length |
| Text.TrimStartSuffix | scripts/validate_patches.py:38 | the left strip removes exactly the leading run of whitespace, up to the first other character |
| Text.TrimEndPrefix | scripts/validate_patches.py:38 | the right strip removes exactly the trailing run of whitespace, back to the last other character |
| Text.StripIsSlice | scripts/validate_patches.py:38 | `strip()` yields a slice with only whitespace outside it, and it neither starts nor ends with whitespace |
| Text.LowerFolds | scripts/validate_patches.py:85 | `lower()` leaves no ASCII capital behind, and lower-casing twice is lower-casing once |
| Text.ContainsLowerIffMatch | scripts/validate_patches.py:85 | a needle without capitals occurs in the lower-cased text exactly when it matches some window of the original text up to ASCII case |
| Text.Split | scripts/validate_patches.py:18 | `split('\n')` always yields at least one piece, the empty text included |
| Text.SplitPiecesNewlineFree | scripts/validate_patches.py:18 | no piece of the split holds a newline |
| Text.JoinSplit | scripts/validate_patches.py:18 | joining the pieces of the split with newlines gives the text back, so no character is lost or added |
| Text.SplitJoin | scripts/validate_patches.py:18 | splitting undoes joining for newline-free pieces, so the split is the unique such decomposition |
| Text.NatToString | scripts/validate_patches.py:50 | `str(n)` is a non-empty run of decimal digits without a leading zero that denotes n |
| Issues.UnmatchedCloseMessage | scripts/validate_patches.py:50 | the unmatched-close message is `Line `, the decimal line number, then `: Unmatched closing brace` |
| Issues.UnclosedBracesMessage | scripts/validate_patches.py:55 | the end-of-file message is `End of file: `, the decimal counter, then ` unclosed braces` |
| Issues.BrandingMessage | scripts/validate_patches.py:89 | the branding message is `Line `, the decimal line number, then the advice to use `PrivacyAgent` |
| Issues.IssueTextInjective | scripts/validate_patches.py:50-89 | distinct issues render as distinct messages, so the issue datatype loses nothing against the returned strings |
| PatchLines.Classify | scripts/validate_patches.py:20-35 | a line is metadata exactly when it starts with one of the seven metadata prefixes, tested first; a hunk marker is an `@@` line that is not metadata; before the first hunk everything else is ignored; inside hunks an added line is `+` but not `+++`, and its code drops the `+` |
| PatchLines.MetadataInitials | scripts/validate_patches.py:20 | among the seven metadata prefixes only `+++` starts with `+`, and none starts with `@` |
| PatchLines.AddedLineIsNotMetadata | scripts/validate_patches.py:20-34 | a `+` line that is not `+++` is neither metadata nor a hunk marker |
| PatchLines.AtLineOpensHunk | scripts/validate_patches.py:20-25 | every `@@` line opens a hunk, since no metadata prefix starts with `@` |
| PatchLines.HunkSeenIffSome | scripts/validate_patches.py:24-25 | the diff-section flag after some lines is set exactly when one of them opens a hunk, and is never reset |
| BraceScan.LineCountOf | scripts/validate_patches.py:34-47 | a line moves the counter exactly when it is an added line inside a diff section whose stripped code does not start with `//`, `*` or `/*`, and it moves it by the `{` count minus the `}` count of its code |
| BraceScan.TickEffect | scripts/validate_patches.py:46-51 | one counted line either adds its delta to the counter, or, when that would go negative, appends one unmatched close and resets the counter to 0; an ignored line changes nothing |
| BraceScan.LineCountsAt | scripts/validate_patches.py:18-30 | each line is counted with the flag that the lines before it leave |
| BraceScan.MetadataLineIsInert | scripts/validate_patches.py:20-21 | a metadata line, inside a hunk too, neither moves the counter nor changes the diff-section flag |
| BraceScan.IgnoredBeforeFirstHunk | scripts/validate_patches.py:28-30 | without a preceding `@@` line, no line counts |
| BraceScan.Run | scripts/validate_patches.py:49-51 | the counter is never negative after any line |
| BraceScan.RunIssuesShape | scripts/validate_patches.py:49-50 | the loop emits only unmatched-close issues, at line numbers of the file, in strictly increasing order |
| BraceScan.UnmatchedCloseExactly | scripts/validate_patches.py:46-51 | an unmatched close names line k exactly when line k is counted and takes the counter below zero, and right after that line the counter is 0 |
| BraceScan.ClampOnlyRaises | scripts/validate_patches.py:49-51 | the clamped counter is never below the plain unclamped sum |
| BraceScan.CleanIffPrefixesNonNegative | scripts/validate_patches.py:43-51 | the loop emits no issue exactly when no prefix of the lines has a negative plain sum, and then the counter equals that sum |
| BraceScan.AllIgnoredRunsStill | scripts/validate_patches.py:32-51 | when no line counts, the counter stays 0 and no issue is emitted |
| BraceScan.BraceIssues | scripts/validate_patches.py:53-57 | there is an end-of-file issue exactly when the final counter is positive and a hunk was seen; it is last and carries the counter; every other issue is an unmatched close |
| BraceScan.CheckBraceBalance | scripts/validate_patches.py:12-57 | the loop returns exactly the specified brace issues of the split text |
| BraceScan.UnmatchedInBraceIssues | scripts/validate_patches.py:46-57 | the returned list names line k as an unmatched close exactly when line k is counted and takes the counter below zero |
| BraceScan.NoHunkNoBraceIssues | scripts/validate_patches.py:24-55 | a patch without any `@@` line gets no brace issue at all |
| BraceScan.BalancedAddsAreClean | scripts/validate_patches.py:43-55 | if no prefix of the counted lines closes more than it opens and the totals are equal, there is no brace issue |
| Validator.FormatIssues | scripts/validate_patches.py:59-75 | the header, marker and section issues are each present exactly when their test fails, independently of each other, at most three, in that fixed order |
| Validator.CheckPatchFormat | scripts/validate_patches.py:59-75 | the conditional appends produce exactly the specified format issues |
| Validator.MarkerLinesAreBrandChecked | scripts/validate_patches.py:87 | a `+++` marker naming an old brand without the new one is a branding violation, though the brace scanner skips it as metadata |
| Validator.Violations | scripts/validate_patches.py:86-89 | the line loop never reports more branding issues than there are lines |
| Validator.ViolationsStep | scripts/validate_patches.py:86-89 | reading line i adds the issue for line i + 1 exactly when that line violates the rule, and nothing otherwise |
| Validator.ViolationsAreViolatingLines | scripts/validate_patches.py:86-89 | every branding issue names a line of the file that starts with `+`, contains an old brand and lacks the new one |
| Validator.ViolatingLinesReported | scripts/validate_patches.py:86-89 | every such line is reported with its 1-based number |
| Validator.ViolationsInLineOrder | scripts/validate_patches.py:86-89 | branding issues come in strictly increasing line order |
| Validator.AppliesBrandingAnyCase | scripts/validate_patches.py:85 | the branding check applies exactly when `branding` occurs in the file name in any mix of ASCII case |
| Validator.BrandingIssues | scripts/validate_patches.py:85-89 | a file whose lower-cased name does not contain `branding` gets no branding issue, and any other file gets the violations of all its lines |
| Validator.ScanBranding | scripts/validate_patches.py:86-89 | the line loop returns exactly the violations of the lines, in line order |
| Validator.CheckBrandingConsistency | scripts/validate_patches.py:77-91 | the loop returns exactly the specified branding issues of the split text |
| Validator.ValidIffAllChecksPass | scripts/validate_patches.py:104-118 | a file is valid exactly when the format, brace and branding issue lists are all empty |
| Validator.ValidatePatchFile | scripts/validate_patches.py:104-118 | the extended issue list is the three checks' lists in order, and the verdict is valid exactly when it is empty |
| Validator.CountTrue | scripts/validate_patches.py:136-141 | the number of positive verdicts is at most the number of verdicts, and equal to it exactly when all are positive |
| Validator.CountValid | scripts/validate_patches.py:136-141 | the number of valid files never exceeds the number of files |
| Validator.AllCountedIffAllValid | scripts/validate_patches.py:146 | the valid count equals the total exactly when every file is valid |
| Validator.CountNextFile | scripts/validate_patches.py:139-141 | one turn of the counting loop takes the number of valid files among the first i to the number among the first i + 1 |
| Validator.CountValidStep | scripts/validate_patches.py:139-141 | counting one more file raises the valid count by one exactly when that file is valid, and otherwise leaves it unchanged |
| Validator.CountValidFiles | scripts/validate_patches.py:136-141 | the counting loop ends with the number of valid files |
| Validator.RunValidator | scripts/validate_patches.py:124-151 | a missing directory and an empty file list end the run with status 1; otherwise the outcome carries the valid count and the total, and the status is 0 exactly when every file is valid |
| DebugBraces.TallyOf | debug_braces.py:19-37 | a line is counted exactly when the linter's classification calls it an added line, comments included, with its code's `{` and `}` counts |
| DebugBraces.LineStep | debug_braces.py:17-43 | a line that is not counted leaves both totals and the entries alone; a counted one adds its counts, and its entry when it holds a brace |
| DebugBraces.ScanLine | debug_braces.py:17-43 | one turn of the loop takes the flag, both totals and the entries for the lines before i to those for the lines up to i |
| DebugBraces.CountBracesInPatch | debug_braces.py:10-53 | the loop's totals, entries, balance and verdict are the specified ones: balance is open minus close, and balanced exactly when the totals are equal |
| DebugBraces.TotalsMonotone | debug_braces.py:42-43 | neither total ever decreases as more lines are read |
| DebugBraces.TotalsAreEntrySums | debug_braces.py:39-43 | each total equals the sum of the per-line counts printed in the entries |
| DebugBraces.EntriesAreShownLines | debug_braces.py:39-40 | every entry belongs to a counted line holding a brace, with that line's number, stripped code and counts |
| DebugBraces.ShownLinesHaveEntries | debug_braces.py:39-40 | every counted line holding a brace has its entry |
| DebugBraces.EntriesInLineOrder | debug_braces.py:17-40 | entries come in strictly increasing line order |
| DebugBraces.CommentLineCountedOnlyHere | debug_braces.py:32-37 | on a `+` line whose code looks like a comment the linter's counter does not move, while inside a diff section the debug count takes exactly the `{` and `}` counts of its code |
| DebugBraces.LineAgrees | debug_braces.py:32-43 | on any other line the linter's delta equals the debug opens minus closes |
| DebugBraces.NetIsBalance | debug_braces.py:42-48 | without comment-like added lines, the linter's unclamped sum equals the debug balance |
| DebugBraces.CounterNotBelowBalance | debug_braces.py:48 | the linter's clamped counter never ends below the debug balance, which itself may be negative |
| DebugBraces.NegativeBalanceAfterHunk | debug_braces.py:17-48 | a hunk marker followed by an added line whose only brace is `}` gives the debug balance -1 |
| DebugBraces.ClampedAfterHunk | scripts/validate_patches.py:46-51 | on the same two lines the linter clamps its counter back to 0 |
| DebugBraces.NegativeBalanceExample | debug_braces.py:48 | the lines `@@` and `+}` give debug balance -1 and linter counter 0, so the counter can sit strictly above the balance |
| DebugBraces.BalancedReportMeansClean | debug_braces.py:50-53 | a balanced debug report whose closes never run ahead of its opens means the linter finds no brace issue, absent comment-like added lines |

## Left out

- File reading and the read-error path (`open`, the `except` branch and its `False`). `validate_patch_file` takes the file's name and contents as a value. The contents are the text that `f.read()` returns in text mode, after UTF-8 decoding and with `\r\n` and a lone `\r` already turned into `\n`. The model's line numbering matches the script's for that text, not for the raw bytes of the file.
- Console output: every `print`, including the per-issue listing, the summary line and the debug script's report. The issues and the debug report are returned as values. `Issues.IssueText` gives the exact message strings.
- `sys.exit`: modelled as the returned exit code.
- The fixed patch directory path, its existence test and `glob`. Whether the directory exists is a parameter, and the patch files arrive as a list already in name order. Sorting only decides the order of printing.
- The hardcoded patch path and the file read in debug_braces.py. The patch text is a parameter, in the same decoded, newline-normalised form.
- Unicode detail of `strip()` and `lower()`. The model strips the ASCII characters Python counts as whitespace (including `\x1c`-`\x1f`) and folds only ASCII capitals.
- build/modules/string_replaces.py: a wrapper over Python's regular-expression engine, file writes and logging helpers defined in other modules.
- check_vm_setup.py: subprocess calls and filesystem probes only.
- ai_diagnostic.js: browser console and DOM queries, with no logic to verify.
- DebugBraces.NetIsBalance: requires that no line at all is a `+` line with comment-like code, even before the first hunk. That is stronger than needed, but it keeps the condition independent of position.
- DebugBraces.CounterNotBelowBalance: requires the same comment-free condition as NetIsBalance.
- DebugBraces.BalancedReportMeansClean: requires the same comment-free condition as NetIsBalance.
