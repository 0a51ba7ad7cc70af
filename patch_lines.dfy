/** How both brace scripts read one line of a unified-diff patch
    (scripts/validate_patches.py:18-35 and debug_braces.py:17-33 repeat the
    same tests in the same order): metadata first, then the hunk marker,
    then the diff-section gate, then added lines. */
module PatchLines {
  import opened Text

  /** Lines starting with one of these are skipped outright, inside a hunk too. */
  const MetadataPrefixes: seq<string> :=
    ["From ", "Date:", "Subject:", "---", "+++", "index ", "diff --git"]

  predicate IsMetadata(line: string) {
    StartsWithAny(line, MetadataPrefixes)
  }

  /** A line that reaches the `@@` test and passes it. */
  predicate OpensHunk(line: string) {
    !IsMetadata(line) && StartsWith(line, "@@")
  }

  /** The kinds a line can take, given whether a diff section has started. */
  datatype LineKind =
    | Metadata             // skipped before any other test
    | HunkMarker           // starts a diff section (for good)
    | OutsideDiff          // no `@@` seen yet: ignored
    | Added(code: string)  // `+` but not `+++`, inside a diff section; code drops the `+`
    | Unscanned            // removed, context or other line inside a diff section

  function Classify(line: string, inDiff: bool): (k: LineKind)
    ensures k == Metadata <==> IsMetadata(line)
    ensures k == HunkMarker <==> OpensHunk(line)
    ensures k == OutsideDiff <==> !inDiff && !IsMetadata(line) && !OpensHunk(line)
    ensures k.Added? <==> inDiff && !IsMetadata(line) && !OpensHunk(line)
                          && StartsWith(line, "+") && !StartsWith(line, "+++")
    ensures k.Added? ==> line == "+" + k.code
  {
    if IsMetadata(line) then Metadata
    else if StartsWith(line, "@@") then HunkMarker
    else if !inDiff then OutsideDiff
    else if StartsWith(line, "+") && !StartsWith(line, "+++") then
      assert line == [line[0]] + line[1..];
      Added(line[1..])
    else Unscanned
  }

  /** The first characters of the metadata prefixes: only `+++` starts with
      `+`, and none starts with `@`. */
  lemma MetadataInitials()
    ensures forall i :: 0 <= i < |MetadataPrefixes| ==>
              |MetadataPrefixes[i]| > 0 && MetadataPrefixes[i][0] != '@' &&
              (MetadataPrefixes[i][0] == '+' <==> i == 4)
  {
    var ps := MetadataPrefixes;
    assert ps[0][0] == 'F' && ps[1][0] == 'D' && ps[2][0] == 'S' && ps[3][0] == '-';
    assert ps[4][0] == '+' && ps[5][0] == 'i' && ps[6][0] == 'd';
  }

  /** A `+` line that is not a `+++` marker matches no metadata prefix and
      is no hunk marker: the only metadata prefix starting with `+` is `+++`. */
  lemma {:induction false} AddedLineIsNotMetadata(line: string)
    requires StartsWith(line, "+") && !StartsWith(line, "+++")
    ensures !IsMetadata(line) && !OpensHunk(line) && !StartsWith(line, "@@")
  {
    assert line[0] == '+';
    MetadataInitials();
    StartsWithAnyIffSome(line, MetadataPrefixes);
    assert MetadataPrefixes[4] == "+++";
  }

  /** Every `@@` line opens a hunk: no metadata prefix starts with `@`. */
  lemma {:induction false} AtLineOpensHunk(line: string)
    requires StartsWith(line, "@@")
    ensures OpensHunk(line)
  {
    assert line[0] == '@';
    MetadataInitials();
    StartsWithAnyIffSome(line, MetadataPrefixes);
  }

  /** The diff-section flag after `lines`: once set, never reset. */
  predicate HunkSeen(lines: seq<string>)
    decreases |lines|
  {
    |lines| > 0 && (HunkSeen(lines[..|lines| - 1]) || OpensHunk(lines[|lines| - 1]))
  }

  /** The flag is set exactly when some line opens a hunk. */
  lemma {:induction false} HunkSeenIffSome(lines: seq<string>)
    ensures HunkSeen(lines) <==> exists k :: 0 <= k < |lines| && OpensHunk(lines[k])
    decreases |lines|
  {
    if |lines| > 0 {
      var init := lines[..|lines| - 1];
      HunkSeenIffSome(init);
      assert forall k :: 0 <= k < |init| ==> init[k] == lines[k];
    }
  }
}
