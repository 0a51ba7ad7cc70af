/** The rest of the patch linter in scripts/validate_patches.py: the
    whole-document format check, the branding check, the aggregation of all
    issues for one file, and the valid/total count with the exit decision
    over all patch files. */
module Validator {
  import opened Text
  import opened Issues
  import opened PatchLines
  import opened BraceScan

  // ---------------------------------------------------------------------
  // check_patch_format

  /** Where each format issue stands in the fixed reporting order. */
  function FormatRank(i: Issue): nat {
    match i
    case MissingHeader => 0
    case MissingDiffMarkers => 1
    case MissingDiffSections => 2
    case _ => 3
  }

  /** What `check_patch_format(content)` returns: three independent
      whole-document tests, each reported exactly when it fails, in the fixed
      order header, markers, sections. */
  function FormatIssues(content: string): (r: seq<Issue>)
    ensures MissingHeader in r <==> !StartsWith(content, "From ")
    ensures MissingDiffMarkers in r <==> !Contains(content, "---") || !Contains(content, "+++")
    ensures MissingDiffSections in r <==> !Contains(content, "@@")
    ensures forall i :: 0 <= i < |r| ==> FormatRank(r[i]) < 3
    ensures forall i, j :: 0 <= i < j < |r| ==> FormatRank(r[i]) < FormatRank(r[j])
    ensures |r| <= 3
  {
    (if !StartsWith(content, "From ") then [MissingHeader] else [])
    + (if !Contains(content, "---") || !Contains(content, "+++") then [MissingDiffMarkers] else [])
    + (if !Contains(content, "@@") then [MissingDiffSections] else [])
  }

  /** `check_patch_format(content)`, appending one issue per failed test. */
  method CheckPatchFormat(content: string) returns (issues: seq<Issue>)
    ensures issues == FormatIssues(content)
  {
    issues := [];
    if !StartsWith(content, "From ") {
      issues := issues + [MissingHeader];
    }
    if !Contains(content, "---") || !Contains(content, "+++") {
      issues := issues + [MissingDiffMarkers];
    }
    if !Contains(content, "@@") {
      issues := issues + [MissingDiffSections];
    }
  }

  // ---------------------------------------------------------------------
  // check_branding_consistency

  /** The brand names that must not be introduced without the new one. */
  const OldTerms: seq<string> := ["Chromium", "BrowserOS", "Chrome"]

  /** The check only runs on files whose lower-cased name mentions branding. */
  predicate AppliesBranding(filename: string) {
    Contains(Lower(filename), "branding")
  }

  /** The branding check applies whatever the case of "branding" in the
      file name: it applies exactly when the name holds the word in any
      mix of capitals and small letters. */
  lemma AppliesBrandingAnyCase(filename: string)
    ensures AppliesBranding(filename) <==> exists i: nat :: MatchesUpToCase(filename, i, "branding")
  {
    ContainsLowerIffMatch(filename, "branding");
  }

  /** Any line starting with `+` (a `+++` marker too, and wherever it stands
      relative to the hunks) that names an old brand but not the new one. */
  predicate IsBrandingViolation(line: string) {
    StartsWith(line, "+") && ContainsAny(line, OldTerms) && !Contains(line, NewTerm)
  }

  /** One issue per violating line, in line order. */
  function Violations(lines: seq<string>): (r: seq<Issue>)
    ensures |r| <= |lines|
    decreases |lines|
  {
    if |lines| == 0 then []
    else
      var n := |lines|;
      Violations(lines[..n - 1]) + (if IsBrandingViolation(lines[n - 1]) then [InconsistentBranding(n)] else [])
  }

  /** Reading line `i` adds its issue exactly when it violates the rule. */
  lemma ViolationsStep(lines: seq<string>, i: nat)
    requires i < |lines|
    ensures Violations(lines[..i + 1]) ==
              Violations(lines[..i]) + (if IsBrandingViolation(lines[i]) then [InconsistentBranding(i + 1)] else [])
  {
    assert lines[..i + 1][..i] == lines[..i];
  }

  /** Every reported issue names a line of the file that violates the rule. */
  lemma {:induction false} ViolationsAreViolatingLines(lines: seq<string>)
    ensures forall i :: 0 <= i < |Violations(lines)| ==>
              && Violations(lines)[i].InconsistentBranding?
              && 1 <= Violations(lines)[i].line <= |lines|
              && IsBrandingViolation(lines[Violations(lines)[i].line - 1])
    decreases |lines|
  {
    if |lines| > 0 {
      var n := |lines|;
      var init := lines[..n - 1];
      ViolationsAreViolatingLines(init);
      assert forall k :: 0 <= k < n - 1 ==> init[k] == lines[k];
    }
  }

  /** Every violating line is reported. */
  lemma {:induction false} ViolatingLinesReported(lines: seq<string>)
    ensures forall k :: 1 <= k <= |lines| && IsBrandingViolation(lines[k - 1]) ==>
              InconsistentBranding(k) in Violations(lines)
    decreases |lines|
  {
    if |lines| > 0 {
      var n := |lines|;
      var init := lines[..n - 1];
      ViolatingLinesReported(init);
      var tail := if IsBrandingViolation(lines[n - 1]) then [InconsistentBranding(n)] else [];
      assert Violations(lines) == Violations(init) + tail;
      forall k | 1 <= k <= n && IsBrandingViolation(lines[k - 1])
        ensures InconsistentBranding(k) in Violations(lines)
      {
        if k < n {
          assert init[k - 1] == lines[k - 1];
          assert InconsistentBranding(k) in Violations(init);
        } else {
          assert tail == [InconsistentBranding(n)];
        }
      }
    }
  }

  /** The issues come in strictly increasing line order. */
  lemma {:induction false} ViolationsInLineOrder(lines: seq<string>)
    ensures forall i, j :: 0 <= i < j < |Violations(lines)| ==>
              && Violations(lines)[i].InconsistentBranding? && Violations(lines)[j].InconsistentBranding?
              && Violations(lines)[i].line < Violations(lines)[j].line
    decreases |lines|
  {
    if |lines| > 0 {
      var n := |lines|;
      var init := lines[..n - 1];
      ViolationsInLineOrder(init);
      ViolationsAreViolatingLines(init);
      var tail := if IsBrandingViolation(lines[n - 1]) then [InconsistentBranding(n)] else [];
      var r, before := Violations(lines), Violations(init);
      assert r == before + tail;
      forall a, b | 0 <= a < b < |r|
        ensures r[a].InconsistentBranding? && r[b].InconsistentBranding? && r[a].line < r[b].line
      {
        assert r[a] == before[a];
        if b < |before| {
          assert r[b] == before[b];
        } else {
          assert r[b] == InconsistentBranding(n);
        }
      }
    } else {
      assert Violations(lines) == [];
    }
  }

  /** A `+++` file marker is metadata to the brace scanner but still a
      candidate for the branding rule. */
  lemma {:induction false} MarkerLinesAreBrandChecked(line: string, inDiff: bool)
    requires StartsWith(line, "+++") && ContainsAny(line, OldTerms) && !Contains(line, NewTerm)
    ensures IsBrandingViolation(line)
    ensures IsMetadata(line) && LineCountOf(line, inDiff) == Ignored
  {
    StartsWithIffPrefix(line, "+++");
    StartsWithIffPrefix(line, "+");
    assert line[..1] == line[..3][..1];
    StartsWithAnyIffSome(line, MetadataPrefixes);
    assert MetadataPrefixes[4] == "+++";
  }

  /** What `check_branding_consistency` returns for `lines`: nothing unless
      the file name mentions branding, and then every violating line. */
  function BrandingIssues(lines: seq<string>, filename: string): (r: seq<Issue>)
    ensures !AppliesBranding(filename) ==> r == []
    ensures AppliesBranding(filename) ==> r == Violations(lines)
  {
    if AppliesBranding(filename) then Violations(lines) else []
  }

  /** The line loop of `check_branding_consistency`: one issue per violating
      line, numbered from 1. */
  method ScanBranding(lines: seq<string>) returns (issues: seq<Issue>)
    ensures issues == Violations(lines)
  {
    issues := [];
    var i := 0;
    while i < |lines|
      invariant 0 <= i <= |lines|
      invariant issues == Violations(lines[..i])
    {
      var line := lines[i];
      ViolationsStep(lines, i);
      if StartsWith(line, "+") && ContainsAny(line, OldTerms) {
        if !Contains(line, NewTerm) {
          issues := issues + [InconsistentBranding(i + 1)];
        }
      }
      i := i + 1;
    }
    assert lines[..i] == lines;
  }

  /** `check_branding_consistency(content, filename)`. */
  method CheckBrandingConsistency(content: string, filename: string) returns (issues: seq<Issue>)
    ensures issues == BrandingIssues(Split(content), filename)
  {
    issues := [];
    if Contains(Lower(filename), "branding") {
      issues := ScanBranding(Split(content));
    }
  }

  // ---------------------------------------------------------------------
  // validate_patch_file and main

  /** One patch file as the directory listing gives it. */
  datatype PatchFile = PatchFile(name: string, content: string)

  /** All issues of one file, format issues first, then brace, then branding. */
  function FileIssues(p: PatchFile): seq<Issue> {
    var lines := Split(p.content);
    FormatIssues(p.content) + BraceIssues(lines) + BrandingIssues(lines, p.name)
  }

  predicate IsValid(p: PatchFile) {
    FileIssues(p) == []
  }

  /** A file is valid exactly when each of the three checks finds nothing. */
  lemma ValidIffAllChecksPass(p: PatchFile)
    ensures IsValid(p) <==> && FormatIssues(p.content) == []
                            && BraceIssues(Split(p.content)) == []
                            && BrandingIssues(Split(p.content), p.name) == []
  {
  }

  /** `validate_patch_file`, given the file's contents: it gathers every
      check's issues into one list, format first, then braces, then
      branding, and the file is valid exactly when that list is empty. */
  method ValidatePatchFile(p: PatchFile) returns (valid: bool)
    ensures valid <==> IsValid(p)
  {
    var allIssues := [];
    var formatIssues := CheckPatchFormat(p.content);
    allIssues := allIssues + formatIssues;
    assert allIssues == formatIssues;
    var braceIssues := CheckBraceBalance(p.content);
    allIssues := allIssues + braceIssues;
    var brandingIssues := CheckBrandingConsistency(p.content, p.name);
    allIssues := allIssues + brandingIssues;
    assert allIssues == FileIssues(p);
    valid := |allIssues| == 0;
  }

  /** Every file of the list is valid. */
  predicate AllValid(ps: seq<PatchFile>) {
    forall i :: 0 <= i < |ps| ==> IsValid(ps[i])
  }

  /** How many of the verdicts are positive. */
  function CountTrue(vs: seq<bool>): (n: nat)
    ensures n <= |vs|
    ensures n == |vs| <==> forall i :: 0 <= i < |vs| ==> vs[i]
    decreases |vs|
  {
    if |vs| == 0 then 0
    else
      var init := vs[..|vs| - 1];
      assert forall i :: 0 <= i < |init| ==> init[i] == vs[i];
      CountTrue(init) + (if vs[|vs| - 1] then 1 else 0)
  }

  lemma {:induction false} CountTrueStep(vs: seq<bool>, i: nat)
    requires i < |vs|
    ensures CountTrue(vs[..i + 1]) == CountTrue(vs[..i]) + (if vs[i] then 1 else 0)
  {
    assert vs[..i + 1][..i] == vs[..i];
  }

  /** The verdict on each file, in order. */
  function Verdicts(ps: seq<PatchFile>): (vs: seq<bool>)
    ensures |vs| == |ps| && forall i :: 0 <= i < |ps| ==> vs[i] == IsValid(ps[i])
  {
    seq(|ps|, i requires 0 <= i < |ps| => IsValid(ps[i]))
  }

  /** The number of valid files, never more than the number of files. */
  function CountValid(ps: seq<PatchFile>): (n: nat)
    ensures n <= |ps|
  {
    CountTrue(Verdicts(ps))
  }

  /** The count reaches the number of files exactly when every file is
      valid. */
  lemma {:induction false} AllCountedIffAllValid(ps: seq<PatchFile>)
    ensures CountValid(ps) == |ps| <==> AllValid(ps)
  {
    var vs := Verdicts(ps);
    assert (forall i :: 0 <= i < |vs| ==> vs[i]) <==> AllValid(ps);
  }

  /** Counting one more file adds one exactly when that file is valid. */
  lemma {:induction false} CountValidStep(ps: seq<PatchFile>, i: nat)
    requires i < |ps|
    ensures CountValid(ps[..i + 1]) == CountValid(ps[..i]) + (if IsValid(ps[i]) then 1 else 0)
  {
    var vs := Verdicts(ps[..i + 1]);
    assert vs[..i] == Verdicts(ps[..i]);
    assert vs[..i + 1] == vs;
    CountTrueStep(vs, i);
  }

  /** How a run ends: the patch directory is missing, it holds no patch
      file, or every file was checked and counted. */
  datatype RunOutcome = MissingDirectory | NoPatchFiles | Results(validCount: nat, totalCount: nat)

  /** One turn of `main`'s counting loop: validate the next file and count
      it when it is valid. */
  method CountNextFile(patches: seq<PatchFile>, i: nat, validCount: nat) returns (newCount: nat)
    requires i < |patches| && validCount == CountValid(patches[..i])
    ensures newCount == CountValid(patches[..i + 1])
  {
    var valid := ValidatePatchFile(patches[i]);
    CountValidStep(patches, i);
    newCount := if valid then validCount + 1 else validCount;
  }

  /** The counting loop of `main`: validates each file in order and counts
      the valid ones. */
  method CountValidFiles(patches: seq<PatchFile>) returns (validCount: nat)
    ensures validCount == CountValid(patches)
  {
    validCount := 0;
    var i := 0;
    while i < |patches|
      invariant 0 <= i <= |patches|
      invariant validCount == CountValid(patches[..i])
    {
      validCount := CountNextFile(patches, i, validCount);
      i := i + 1;
    }
    assert patches[..i] == patches;
  }

  /** `main`, from the directory check on: refuses a missing directory and
      an empty list of patch files, otherwise counts the valid files, and
      exits with status 0 exactly when all of them are valid. */
  method RunValidator(directoryExists: bool, patches: seq<PatchFile>) returns (outcome: RunOutcome, exitCode: int)
    ensures !directoryExists ==> outcome == MissingDirectory
    ensures directoryExists && |patches| == 0 ==> outcome == NoPatchFiles
    ensures directoryExists && |patches| > 0 ==> outcome == Results(CountValid(patches), |patches|)
    ensures exitCode == 0 <==> directoryExists && |patches| > 0 && AllValid(patches)
    ensures exitCode == 0 || exitCode == 1
  {
    if !directoryExists {
      return MissingDirectory, 1;
    }
    if |patches| == 0 {
      return NoPatchFiles, 1;
    }
    var validCount := CountValidFiles(patches);
    var totalCount := |patches|;
    AllCountedIffAllValid(patches);
    outcome := Results(validCount, totalCount);
    exitCode := if validCount == totalCount then 0 else 1;
  }
}
