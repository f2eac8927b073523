/**
The patch `costroid init` prints for a workflow that exists (cmd/costroid/init.go). What
reading the workflow as YAML finds is a parameter.
*/
module ExistingPatch {
  import opened Wrappers
  import opened PatchFormat
  import opened Splice
  import opened Strings
  import opened UnifiedDiff
  import opened WorkflowBlocks

  /**
  The one step to read from and the jobs key: the lines they open on, how far in their
  dash and key stand, and the lines to add for the read step and the report job.
  */
  datatype Found = Found(step: nat, dash: int, jobs: nat, jobsIndent: int, readStep: seq<string>,
                         reportJob: seq<string>)

  ghost predicate InLines(found: Found, lines: seq<string>) {
    found.step < |lines| && found.jobs < |lines| && OneLine(found.readStep) && OneLine(found.reportJob)
  }

  /** existingInsertions: one after the end of each block. */
  method ExistingInsertions(lines: seq<string>, found: Found)
    returns (insertions: seq<Insertion>, ghost stepLast: nat, ghost jobsLast: nat)
    requires InLines(found, lines)
    ensures EndsBlock(lines, found.step, found.dash, stepLast)
            && EndsBlock(lines, found.jobs, found.jobsIndent, jobsLast)
    ensures insertions == [Insertion(stepLast + 1, found.readStep), Insertion(jobsLast + 1, [""] + found.reportJob)]
    ensures InFile(insertions, |lines|)
  {
    hide EndsBlock;
    var step := BlockEnd(lines, found.step, found.dash);
    var jobs := BlockEnd(lines, found.jobs, found.jobsIndent);
    BlockInFile(lines, found.step, found.dash, step);
    BlockInFile(lines, found.jobs, found.jobsIndent, jobs);
    stepLast, jobsLast := step, jobs;
    insertions := [Insertion(step + 1, found.readStep), Insertion(jobs + 1, [""] + found.reportJob)];
  }

  lemma BlockInFile(lines: seq<string>, start: nat, indent: int, last: nat)
    requires start < |lines| && EndsBlock(lines, start, indent, last)
    ensures last < |lines|
  {
  }

  /** Two insertions are placed exactly when the first is at most three lines behind the second. */
  lemma PlacedExactly(insertions: seq<Insertion>, n: nat)
    requires |insertions| == 2 && InFile(insertions, n)
    ensures Fits(insertions, n) <==> insertions[0].before <= insertions[1].before + DIFF_CONTEXT
    ensures Apart(insertions) <==> !Fits(insertions, n)
  {
    Pairs(insertions);
  }

  /**
  printExistingPatch: nothing for a workflow it does not write into. The patch printed
  applies, and gives the workflow with both blocks added, exactly when the step's block
  ends at most three lines behind the end of the jobs block; otherwise it does not apply.
  */
  method PrintExistingPatch(name: string, source: string, found: Option<Found>)
    returns (out: Option<string>, ghost stepLast: nat, ghost jobsLast: nat)
    requires found.Some? ==> source != "" && InLines(found.value, SplitLines(source))
    ensures out.Some? <==> found.Some?
    ensures found.Some? ==>
        && var lines := SplitLines(source);
        && var insertions := [Insertion(stepLast + 1, found.value.readStep),
                              Insertion(jobsLast + 1, [""] + found.value.reportJob)];
        && EndsBlock(lines, found.value.step, found.value.dash, stepLast)
        && EndsBlock(lines, found.value.jobs, found.value.jobsIndent, jobsLast)
        && ApplyPatch(out.value, name, source) ==
           if stepLast <= jobsLast + 3
           then Some(FileText(Spliced(lines, EndsWithNewline(source), insertions)))
           else None
  {
    hide EndsBlock, Fits, Apart, ApplyPatch, Spliced, SplitLines;
    stepLast, jobsLast := 0, 0;
    if found.None? {
      return None, 0, 0;
    }
    var lines := SplitLines(source);
    var insertions;
    insertions, stepLast, jobsLast := ExistingInsertions(lines, found.value);
    PlacedExactly(insertions, |lines|);
    assert LinesIn(insertions) > 0;
    var patch := PatchOf(name, source, insertions);
    return Some(patch), stepLast, jobsLast;
  }

  /** When the blocks nest, which they do unless a line between them stands too far out, the patch applies. */
  lemma NestedBlocksAreOrdered(lines: seq<string>, found: Found, stepLast: nat, jobsLast: nat)
    requires InLines(found, lines) && found.jobs < found.step
    requires Deeper(lines[found.step], found.jobsIndent) && Indent(lines[found.step]) == found.dash
    requires EndsBlock(lines, found.step, found.dash, stepLast)
             && EndsBlock(lines, found.jobs, found.jobsIndent, jobsLast)
    ensures var insertions := [Insertion(stepLast + 1, found.readStep),
                               Insertion(jobsLast + 1, [""] + found.reportJob)];
            Ordered(insertions) <==> StaysInside(lines, found.jobs, found.jobsIndent, found.step)
  {
    hide EndsBlock, StaysInside;
    StepEndsInJobsExactly(lines, found.jobs, found.jobsIndent, jobsLast, found.step, found.dash, stepLast);
    var insertions := [Insertion(stepLast + 1, found.readStep), Insertion(jobsLast + 1, [""] + found.reportJob)];
    assert Ordered(insertions) <==> insertions[0].before <= insertions[1].before;
  }

  lemma {:induction false} RawTextUnended(lines: seq<string>) returns (unended: string)
    requires lines != [] && OneLine(lines)
    ensures RawText(lines) == unended + "\n" && SplitAtNewlines(unended) == lines
    decreases |lines|
  {
    hide CutAt;
    if |lines| == 1 {
      unended := lines[0];
      assert lines == [lines[0]] && lines[1..] == [];
      assert RawText(lines) == lines[0] + "\n";
      CutAbsent(lines[0], '\n');
    } else {
      var rest := RawTextUnended(lines[1..]);
      unended := lines[0] + ['\n'] + rest;
      CutUnique(lines[0], '\n', rest);
      assert lines == [lines[0]] + lines[1..];
    }
  }

  /** Lines that each end with a newline split into themselves. */
  lemma RawTextSplits(lines: seq<string>)
    requires lines != [] && OneLine(lines)
    ensures RawText(lines) != "" && SplitLines(RawText(lines)) == lines
  {
    hide RawText, SplitAtNewlines, OneLine;
    var unended := RawTextUnended(lines);
    assert (unended + "\n")[..|unended|] == unended;
  }

  lemma CommentedBlocks(stepLast: nat, jobsLast: nat)
    requires EndsBlock(COMMENTED, 5, 4, stepLast) && EndsBlock(COMMENTED, 0, 0, jobsLast)
    ensures stepLast == 5 && jobsLast == 1
  {
    hide EndsBlock;
    CommentEndsBlock();
    BlockEndUnique(COMMENTED, 5, 4, stepLast, 5);
    BlockEndUnique(COMMENTED, 0, 0, jobsLast, 1);
  }

  /**
  A comment at the margin before the step can part them: whatever the two blocks hold,
  the patch of such a workflow does not apply.
  */
  method CommentSpoilsPatch(name: string, readStep: seq<string>, reportJob: seq<string>) returns (out: string)
    requires OneLine(readStep) && OneLine(reportJob)
    ensures ApplyPatch(out, name, RawText(COMMENTED)) == None
  {
    hide ApplyPatch, EndsBlock, RawText, SplitLines, Spliced, OneLine;
    CommentedIsOneLine();
    RawTextSplits(COMMENTED);
    var found := Found(5, 4, 0, 0, readStep, reportJob);
    ghost var stepLast, jobsLast;
    var patch;
    patch, stepLast, jobsLast := PrintExistingPatch(name, RawText(COMMENTED), Some(found));
    CommentedBlocks(stepLast, jobsLast);
    return patch.value;
  }

  lemma CommentedIsOneLine()
    ensures OneLine(COMMENTED)
  {
  }
}
