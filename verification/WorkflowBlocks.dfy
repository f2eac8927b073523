/** Where the blocks of a workflow end (blockEnd in cmd/costroid/init.go), which orders init's insertions. */
module WorkflowBlocks {
  /** Leading spaces. */
  function Indent(line: string): (n: nat)
    ensures n <= |line| && (forall i | 0 <= i < n :: line[i] == ' ') && (n < |line| ==> line[n] != ' ')
  {
    if line != "" && line[0] == ' ' then 1 + Indent(line[1..]) else 0
  }

  predicate Blank(line: string) {
    Indent(line) == |line|
  }

  /** A line inside the block: it stands deeper than indent. */
  predicate Deeper(line: string, indent: int) {
    !Blank(line) && Indent(line) > indent
  }

  /** Nothing but blank lines stand between last and stop, where the file ends or a line stands no deeper. */
  ghost predicate StopsAt(lines: seq<string>, indent: int, last: nat, stop: nat) {
    && last < stop
    && (forall i | last < i < stop && i < |lines| :: Blank(lines[i]))
    && (stop < |lines| ==> !Blank(lines[stop]) && Indent(lines[stop]) <= indent)
  }

  /** last ends the block that opens on line start: every line after start up to it is blank or in the block. */
  ghost predicate EndsBlock(lines: seq<string>, start: nat, indent: int, last: nat) {
    && start <= last
    && (last > start ==> last < |lines| && Deeper(lines[last], indent))
    && (forall i | start < i < |lines| && i <= last :: Blank(lines[i]) || Deeper(lines[i], indent))
    && exists stop :: StopsAt(lines, indent, last, stop)
  }

  method BlockEnd(lines: seq<string>, start: nat, indent: int) returns (last: nat)
    ensures EndsBlock(lines, start, indent, last)
  {
    last := start;
    var i := start + 1;
    while i < |lines|
      invariant start <= last < i
      invariant last > start ==> last < |lines| && Deeper(lines[last], indent)
      invariant forall j | start < j < |lines| && j <= last :: Blank(lines[j]) || Deeper(lines[j], indent)
      invariant forall j | last < j < i && j < |lines| :: Blank(lines[j])
    {
      if !Blank(lines[i]) {
        if Indent(lines[i]) <= indent {
          assert StopsAt(lines, indent, last, i);
          return;
        }
        last := i;
      }
      i := i + 1;
    }
    assert StopsAt(lines, indent, last, i);
  }

  /** A block has one end. */
  lemma BlockEndUnique(lines: seq<string>, start: nat, indent: int, a: nat, b: nat)
    requires EndsBlock(lines, start, indent, a) && EndsBlock(lines, start, indent, b)
    ensures a == b
  {
    EndsInside(lines, start, indent, a, start, indent, b);
    EndsInside(lines, start, indent, b, start, indent, a);
  }

  lemma EndsInside(lines: seq<string>, outer: nat, outerIndent: int, outerLast: nat,
                   inner: nat, innerIndent: int, innerLast: nat)
    requires EndsBlock(lines, outer, outerIndent, outerLast) && EndsBlock(lines, inner, innerIndent, innerLast)
    requires inner <= outerLast && outerIndent <= innerIndent
    ensures innerLast <= outerLast
  {
    var stop: nat :| StopsAt(lines, outerIndent, outerLast, stop);
    assert outerLast < innerLast ==> stop <= innerLast;
  }

  /** No line from jobs to step stands as far out as the jobs key, unless it is blank. */
  predicate StaysInside(lines: seq<string>, jobs: nat, jobsIndent: int, step: nat)
    requires step < |lines|
  {
    forall i | jobs < i <= step :: Blank(lines[i]) || Indent(lines[i]) > jobsIndent
  }

  /**
  A step below the jobs key and deeper than it ends inside the block of that key exactly
  when no line between them, comments included, stands as far out as the key.
  */
  lemma StepEndsInJobsExactly(lines: seq<string>, jobs: nat, jobsIndent: int, jobsLast: nat,
                              step: nat, dash: int, stepLast: nat)
    requires jobs < step < |lines| && Deeper(lines[step], jobsIndent) && Indent(lines[step]) == dash
    requires EndsBlock(lines, jobs, jobsIndent, jobsLast) && EndsBlock(lines, step, dash, stepLast)
    ensures stepLast <= jobsLast <==> StaysInside(lines, jobs, jobsIndent, step)
  {
    var stop: nat :| StopsAt(lines, jobsIndent, jobsLast, stop);
    if step <= jobsLast {
      EndsInside(lines, jobs, jobsIndent, jobsLast, step, dash, stepLast);
    } else {
      assert stop <= step;
    }
  }

  /** A comment at the margin, between the key and the step. */
  const COMMENTED := ["jobs:", "  a:", "# c", "  b:", "    steps:", "    - uses: anthropics/claude-code-action@v1"]

  /** It ends the jobs block four lines before the step's block ends. */
  lemma CommentEndsBlock()
    ensures EndsBlock(COMMENTED, 0, 0, 1) && EndsBlock(COMMENTED, 5, 4, 5)
    ensures !StaysInside(COMMENTED, 0, 0, 5)
  {
    Indents();
    assert StopsAt(COMMENTED, 0, 1, 2);
    assert StopsAt(COMMENTED, 4, 5, 6);
  }

  lemma Indents()
    ensures Indent(COMMENTED[1]) == 2 && Indent(COMMENTED[2]) == 0 && |COMMENTED[1]| > 2 && |COMMENTED[2]| > 0
  {
    assert COMMENTED[1][1..][1..] == "a:";
  }
}
