/**
The patch printer of `costroid init` (cmd/costroid/init.go). It prints text; what
the text means is PatchFormat's, and what it should mean is Splice's.
*/
module UnifiedDiff {
  import opened Wrappers
  import opened Order
  import opened Strings
  import opened PatchFormat
  import opened Splice

  const DIFF_CONTEXT := 3

  // ---- splitLines ---------------------------------------------------------

  predicate EndsWithNewline(source: string) {
    source != "" && source[|source| - 1] == '\n'
  }

  function SplitLines(source: string): (lines: seq<string>)
    ensures lines != [] && OneLine(lines)
  {
    SplitAtNewlines(if EndsWithNewline(source) then source[..|source| - 1] else source)
  }

  lemma {:induction false} LinesOfComplete(text: string)
    ensures FileLines(text + "\n") == Complete(SplitAtNewlines(text))
    decreases |text|
  {
    hide CutAt;
    var cut := CutAt(text, '\n');
    if cut.found {
      LinesOfComplete(cut.after);
      assert text + "\n" == cut.before + ['\n'] + (cut.after + "\n");
      CutUnique(cut.before, '\n', cut.after + "\n");
      OneMoreComplete(cut.before, SplitAtNewlines(cut.after));
    } else {
      assert text + "\n" == text + ['\n'] + "";
      CutUnique(text, '\n', "");
    }
  }

  lemma OneMoreComplete(first: string, rest: seq<string>)
    ensures Complete([first] + rest) == [Line(first, true)] + Complete(rest)
    ensures rest != [] ==> OldLines([first] + rest, false) == [Line(first, true)] + OldLines(rest, false)
  {
  }

  lemma {:induction false} LinesOfIncomplete(text: string)
    requires text != "" && !EndsWithNewline(text)
    ensures FileLines(text) == OldLines(SplitAtNewlines(text), false)
    decreases |text|
  {
    hide CutAt;
    var cut := CutAt(text, '\n');
    if cut.found {
      assert text[|text| - 1] == (['\n'] + cut.after)[|cut.after|];
      LinesOfIncomplete(cut.after);
      OneMoreComplete(cut.before, SplitAtNewlines(cut.after));
    }
  }

  /** A file that is not empty splits into the lines a patch reads; an empty one splits into one empty line. */
  lemma SplitLinesAreFileLines(source: string)
    ensures source != "" ==> FileLines(source) == OldLines(SplitLines(source), EndsWithNewline(source))
    ensures source == "" ==> SplitLines(source) == [""]
  {
    if EndsWithNewline(source) {
      var text := source[..|source| - 1];
      assert source == text + "\n";
      LinesOfComplete(text);
      assert Complete(SplitAtNewlines(text)) == OldLines(SplitAtNewlines(text), true);
    } else if source != "" {
      LinesOfIncomplete(source);
    }
  }

  // ---- writeContextLine ---------------------------------------------------

  lemma OneRawLine(raw: string)
    ensures RawText([raw]) == raw + "\n"
  {
    assert [raw][1..] == [];
  }

  lemma OnePrinted(p: PatchLine)
    ensures RawBody([p]) == RawOf(p) && OldSide([p]) == OldLine(p) && NewSide([p]) == NewLine(p)
  {
    assert [p][1..] == [];
  }

  /** A line as printed. */
  lemma PrintedLine(p: PatchLine)
    ensures RawText(RawBody([p])) ==
            [Sign(p)] + p.line.text + "\n" + (if p.line.newline then "" else Marker() + "\n")
  {
    var raw := [Sign(p)] + p.line.text;
    OnePrinted(p);
    OneRawLine(raw);
    if !p.line.newline {
      assert RawOf(p) == [raw] + [Marker()];
      RawTextConcat([raw], [Marker()]);
      OneRawLine(Marker());
    }
  }

  function Replaced(text: string): seq<PatchLine> {
    [Removed(Line(text, false))] + [Added(Line(text, true))]
  }

  lemma PrintedReplacement(text: string)
    ensures RawText(RawBody(Replaced(text))) == "-" + text + "\n" + Marker() + "\n+" + text + "\n"
    ensures OldSide(Replaced(text)) == [Line(text, false)] && NewSide(Replaced(text)) == [Line(text, true)]
  {
    var a, b := [Removed(Line(text, false))], [Added(Line(text, true))];
    PrintedLine(a[0]);
    PrintedLine(b[0]);
    OnePrinted(a[0]);
    OnePrinted(b[0]);
    RawBodyConcat(a, b);
    RawTextConcat(RawBody(a), RawBody(b));
    OldSideConcat(a, b);
    NewSideConcat(a, b);
  }

  /** The unchanged line at index, which is replaced when it gains a newline. */
  function ContextPatch(lines: seq<string>, index: nat, endsWithNewline: bool, hunk: seq<Insertion>): seq<PatchLine>
    requires index < |lines|
  {
    if index != |lines| - 1 || endsWithNewline then [Context(Line(lines[index], true))]
    else if AnyAt(hunk, |lines|) then Replaced(lines[index])
    else [Context(Line(lines[index], false))]
  }

  lemma ContextSides(lines: seq<string>, index: nat, endsWithNewline: bool, hunk: seq<Insertion>)
    requires index < |lines|
    ensures OldSide(ContextPatch(lines, index, endsWithNewline, hunk)) == [OldLines(lines, endsWithNewline)[index]]
    ensures NewSide(ContextPatch(lines, index, endsWithNewline, hunk)) ==
            [OldLines(lines, EndsAfter(lines, endsWithNewline, hunk))[index]]
  {
    PrintedReplacement(lines[index]);
    OnePrinted(Context(Line(lines[index], true)));
    OnePrinted(Context(Line(lines[index], false)));
  }

  method WriteContextLine(out: string, lines: seq<string>, index: nat, endsWithNewline: bool, hunk: seq<Insertion>)
    returns (written: string)
    requires index < |lines|
    ensures written == out + RawText(RawBody(ContextPatch(lines, index, endsWithNewline, hunk)))
  {
    hide RawText, RawBody, Marker;
    var text := lines[index];
    if index != |lines| - 1 || endsWithNewline {
      PrintedLine(Context(Line(text, true)));
      return out + (" " + text + "\n");
    }
    for k := 0 to |hunk|
      invariant forall j | 0 <= j < k :: hunk[j].before != |lines|
    {
      if hunk[k].before == |lines| {
        PrintedReplacement(text);
        return out + ("-" + text + "\n" + Marker() + "\n+" + text + "\n");
      }
    }
    PrintedLine(Context(Line(text, false)));
    return out + (" " + text + "\n" + Marker() + "\n");
  }

  // ---- unifiedDiff --------------------------------------------------------

  /** Printing patch lines after out gave written; these are their old and new sides. */
  ghost predicate Wrote(out: string, written: string, printed: seq<PatchLine>, oldSide: seq<Line>, newSide: seq<Line>) {
    && written == out + RawText(RawBody(printed))
    && OneLineBody(printed)
    && OldSide(printed) == oldSide
    && NewSide(printed) == newSide
  }

  lemma WroteNothing(out: string)
    ensures Wrote(out, out, [], [], [])
  {
    assert out + "" == out;
  }

  lemma WroteMore(out: string, a: string, first: seq<PatchLine>, old1: seq<Line>, new1: seq<Line>,
                  b: string, more: seq<PatchLine>, old2: seq<Line>, new2: seq<Line>)
    requires Wrote(out, a, first, old1, new1) && Wrote(a, b, more, old2, new2)
    ensures Wrote(out, b, first + more, old1 + old2, new1 + new2)
    ensures old1 == old2 == [] ==> Wrote(out, b, first + more, [], new1 + new2)
  {
    hide RawText, RawBody, OldSide, NewSide;
    RawBodyConcat(first, more);
    RawTextConcat(RawBody(first), RawBody(more));
    OldSideConcat(first, more);
    NewSideConcat(first, more);
    Associates(out, RawText(RawBody(first)), RawText(RawBody(more)));
  }

  lemma WroteAdded(out: string, text: string)
    requires '\n' !in text
    ensures Wrote(out, out + ("+" + text + "\n"), [Added(Line(text, true))], [], [Line(text, true)])
  {
    PrintedLine(Added(Line(text, true)));
    OnePrinted(Added(Line(text, true)));
  }

  lemma WroteContext(out: string, lines: seq<string>, index: nat, endsWithNewline: bool, hunk: seq<Insertion>)
    requires index < |lines| && OneLine(lines)
    ensures var printed := ContextPatch(lines, index, endsWithNewline, hunk);
            Wrote(out, out + RawText(RawBody(printed)), printed, [OldLines(lines, endsWithNewline)[index]],
                  [OldLines(lines, EndsAfter(lines, endsWithNewline, hunk))[index]])
  {
    ContextSides(lines, index, endsWithNewline, hunk);
  }

  /** The loop over one insertion's lines. */
  method WriteAdded(out: string, lines: seq<string>) returns (written: string, ghost printed: seq<PatchLine>)
    requires OneLine(lines)
    ensures Wrote(out, written, printed, [], Complete(lines))
  {
    hide Wrote;
    written, printed := out, [];
    WroteNothing(out);
    for k := 0 to |lines|
      invariant Wrote(out, written, printed, [], Complete(lines)[..k])
    {
      WroteAdded(written, lines[k]);
      WroteMore(out, written, printed, [], Complete(lines)[..k],
                written + ("+" + lines[k] + "\n"), [Added(Line(lines[k], true))], [], [Line(lines[k], true)]);
      written := written + ("+" + lines[k] + "\n");
      printed := printed + [Added(Line(lines[k], true))];
      assert Complete(lines)[..k] + [Line(lines[k], true)] == Complete(lines)[..k + 1];
    }
    assert Complete(lines)[..|lines|] == Complete(lines);
  }

  /** The loop over a hunk's insertions at one index. */
  method WriteInserted(out: string, hunk: seq<Insertion>, index: nat)
    returns (written: string, ghost printed: seq<PatchLine>)
    requires LineByLine(hunk)
    ensures Wrote(out, written, printed, [], InsertedAt(hunk, index))
  {
    hide Wrote;
    written, printed := out, [];
    WroteNothing(out);
    assert hunk[..0] == [];
    for k := 0 to |hunk|
      invariant Wrote(out, written, printed, [], InsertedAt(hunk[..k], index))
    {
      assert hunk[..k + 1] == hunk[..k] + [hunk[k]];
      InsertedAppend(hunk[..k], [hunk[k]], index);
      assert InsertedAt([hunk[k]], index) == PutAt(hunk[k], index);
      assert hunk[k].before != index ==> InsertedAt(hunk[..k], index) + [] == InsertedAt(hunk[..k], index);
      if hunk[k].before == index {
        ghost var a, more := written, [];
        written, more := WriteAdded(written, hunk[k].lines);
        WroteMore(out, a, printed, [], InsertedAt(hunk[..k], index), written, more, [], Complete(hunk[k].lines));
        printed := printed + more;
      }
    }
    assert hunk[..|hunk|] == hunk;
  }

  /** A hunk holds every insertion its stretch of the file has. */
  ghost predicate Covers(hunk: seq<Insertion>, insertions: seq<Insertion>, start: nat, end: nat, n: nat) {
    && (forall index | start <= index <= end :: InsertedAt(hunk, index) == InsertedAt(insertions, index))
    && (end == n ==> AnyAt(hunk, n) == AnyAt(insertions, n))
  }

  /** What stands in the new file between the hunk's start and index, with what is inserted at index or without. */
  ghost function Stretch(lines: seq<string>, endsWithNewline: bool, insertions: seq<Insertion>, start: nat, index: nat,
                         through: bool): seq<Line>
    requires start <= index <= |lines|
  {
    SplicedLength(lines, endsWithNewline, insertions, index);
    SplicedLength(lines, endsWithNewline, insertions, start);
    BelowGrows(insertions, start, index);
    var from := |SplicedTo(lines, endsWithNewline, insertions, start)|;
    if through then SplicedThrough(lines, endsWithNewline, insertions, index)[from..]
    else SplicedTo(lines, endsWithNewline, insertions, index)[from..]
  }

  lemma {:induction false} BelowGrows(insertions: seq<Insertion>, lo: int, hi: int)
    requires lo <= hi
    ensures LinesBelow(insertions, lo) <= LinesBelow(insertions, hi)
  {
    if insertions != [] {
      BelowGrows(insertions[1..], lo, hi);
    }
  }

  lemma StretchThrough(lines: seq<string>, endsWithNewline: bool, insertions: seq<Insertion>, start: nat, index: nat)
    requires start <= index <= |lines|
    ensures Stretch(lines, endsWithNewline, insertions, start, index, false) + InsertedAt(insertions, index)
            == Stretch(lines, endsWithNewline, insertions, start, index, true)
  {
    hide InsertedAt;
    SplicedLength(lines, endsWithNewline, insertions, index);
    SplicedLength(lines, endsWithNewline, insertions, start);
    BelowGrows(insertions, start, index);
    DropOfConcat(SplicedTo(lines, endsWithNewline, insertions, index), InsertedAt(insertions, index),
                 |SplicedTo(lines, endsWithNewline, insertions, start)|);
  }

  lemma DropOfConcat<T>(a: seq<T>, b: seq<T>, k: nat)
    requires k <= |a|
    ensures (a + b)[k..] == a[k..] + b
  {
  }

  lemma SliceNext<T>(s: seq<T>, lo: nat, hi: nat)
    requires lo <= hi < |s|
    ensures s[lo..hi] + [s[hi]] == s[lo..hi + 1]
  {
  }

  /** A line of the stretch is kept as the whole file's insertions have it. */
  lemma LineOfStretch(lines: seq<string>, endsWithNewline: bool, insertions: seq<Insertion>, hunk: seq<Insertion>,
                      start: nat, end: nat, index: nat)
    requires start <= index < end <= |lines| && Covers(hunk, insertions, start, end, |lines|)
    ensures OldLines(lines, EndsAfter(lines, endsWithNewline, hunk))[index]
         == OldLines(lines, EndsAfter(lines, endsWithNewline, insertions))[index]
  {
  }

  lemma StretchNext(lines: seq<string>, endsWithNewline: bool, insertions: seq<Insertion>, start: nat, index: nat)
    requires start <= index < |lines|
    ensures Stretch(lines, endsWithNewline, insertions, start, index, true)
            + [OldLines(lines, EndsAfter(lines, endsWithNewline, insertions))[index]]
            == Stretch(lines, endsWithNewline, insertions, start, index + 1, false)
  {
    hide InsertedAt, EndsAfter, OldLines;
    SplicedLength(lines, endsWithNewline, insertions, index);
    SplicedLength(lines, endsWithNewline, insertions, start);
    BelowGrows(insertions, start, index);
    DropOfConcat(SplicedThrough(lines, endsWithNewline, insertions, index),
                 [OldLines(lines, EndsAfter(lines, endsWithNewline, insertions))[index]],
                 |SplicedTo(lines, endsWithNewline, insertions, start)|);
  }

  lemma StretchEmpty(lines: seq<string>, endsWithNewline: bool, insertions: seq<Insertion>, start: nat)
    requires start <= |lines|
    ensures Stretch(lines, endsWithNewline, insertions, start, start, false) == []
    ensures OldLines(lines, endsWithNewline)[start..start] == []
  {
  }

  /** The loop over a hunk's lines. */
  method WriteBody(out: string, lines: seq<string>, endsWithNewline: bool, ghost insertions: seq<Insertion>,
                   hunk: seq<Insertion>, start: nat, end: nat)
    returns (written: string, ghost body: seq<PatchLine>)
    requires end <= |lines| && OneLine(lines)
    requires LineByLine(hunk)
    requires start <= end ==> Covers(hunk, insertions, start, end, |lines|)
    ensures start <= end ==>
        Wrote(out, written, body, OldLines(lines, endsWithNewline)[start..end],
              Stretch(lines, endsWithNewline, insertions, start, end, true))
    ensures start > end ==> written == out && body == []
  {
    hide Wrote, Stretch, OldLines, InsertedAt, ContextPatch;
    written, body := out, [];
    if start > end {
      return;
    }
    ghost var was := OldLines(lines, endsWithNewline);
    WroteNothing(out);
    StretchEmpty(lines, endsWithNewline, insertions, start);
    var index := start;
    while index <= end
      invariant start <= index <= end + 1
      invariant index <= end ==>
          Wrote(out, written, body, was[start..index], Stretch(lines, endsWithNewline, insertions, start, index, false))
      invariant index == end + 1 ==>
          Wrote(out, written, body, was[start..end], Stretch(lines, endsWithNewline, insertions, start, end, true))
    {
      ghost var a, more := written, [];
      written, more := WriteInserted(written, hunk, index);
      WroteMore(out, a, body, was[start..index], Stretch(lines, endsWithNewline, insertions, start, index, false),
                written, more, [], InsertedAt(hunk, index));
      StretchThrough(lines, endsWithNewline, insertions, start, index);
      assert was[start..index] + [] == was[start..index];
      body := body + more;
      if index < end {
        a := written;
        more := ContextPatch(lines, index, endsWithNewline, hunk);
        written := WriteContextLine(written, lines, index, endsWithNewline, hunk);
        WroteContext(a, lines, index, endsWithNewline, hunk);
        WroteMore(out, a, body, was[start..index], Stretch(lines, endsWithNewline, insertions, start, index, true),
                  written, more, [was[index]], [OldLines(lines, EndsAfter(lines, endsWithNewline, hunk))[index]]);
        LineOfStretch(lines, endsWithNewline, insertions, hunk, start, end, index);
        StretchNext(lines, endsWithNewline, insertions, start, index);
        SliceNext(was, start, index);
        body := body + more;
      }
      index := index + 1;
    }
  }

  /** Two insertions in the wrong order, the first no further behind the second than the context reaches. */
  ghost predicate Near(insertions: seq<Insertion>) {
    |insertions| == 2 && insertions[1].before < insertions[0].before <= insertions[1].before + DIFF_CONTEXT
  }

  /** Two insertions in the wrong order, and further apart than the context reaches. */
  ghost predicate Apart(insertions: seq<Insertion>) {
    |insertions| == 2 && insertions[1].before + DIFF_CONTEXT < insertions[0].before
  }

  /** The insertions of a file of n lines that the printer places: in order, or two that are near each other. */
  ghost predicate Fits(insertions: seq<Insertion>, n: nat) {
    (Ordered(insertions) || Near(insertions)) && InFile(insertions, n)
  }

  lemma Pairs(insertions: seq<Insertion>)
    requires |insertions| == 2
    ensures Apart(insertions) <==> !Ordered(insertions) && !Near(insertions)
  {
    assert Ordered(insertions) <==> insertions[0].before <= insertions[1].before;
  }

  /** The first insertions of a list, and what they make of a file, when the rest lie beyond position. */
  ghost predicate Done(was: seq<Line>, lines: seq<string>, endsWithNewline: bool, insertions: seq<Insertion>,
                       hunks: seq<Hunk>, k: nat, position: nat)
    requires k <= |insertions|
  {
    && position <= |lines|
    && (k == 0 ==> position == 0 && hunks == [])
    && (k > 0 ==>
         && hunks != [] && hunks[0].oldCount > 0
         && (forall j | 0 <= j < k :: insertions[j].before <= position)
         && (forall j | k <= j < |insertions| :: insertions[j].before - DIFF_CONTEXT > position)
         && ApplyHunks(was, hunks) ==
             Some(State(position, SplicedThrough(lines, endsWithNewline, insertions, position))))
    && (forall i | 0 <= i < |hunks| :: OneLineBody(hunks[i].body))
  }

  lemma AnyAtAppend(a: seq<Insertion>, b: seq<Insertion>, index: nat)
    ensures AnyAt(a + b, index) == (AnyAt(a, index) || AnyAt(b, index))
  {
    if AnyAt(a, index) {
      var k :| 0 <= k < |a| && a[k].before == index;
      assert (a + b)[k].before == index;
    } else if AnyAt(b, index) {
      var k :| 0 <= k < |b| && b[k].before == index;
      assert (a + b)[|a| + k].before == index;
    }
  }

  /** A group of insertions covers its stretch when those before end before it and those after start after it. */
  lemma GroupCovers(before: seq<Insertion>, hunk: seq<Insertion>, after: seq<Insertion>, start: nat, end: nat, n: nat)
    requires start <= end <= n
    requires forall j | 0 <= j < |before| :: before[j].before < start
    requires forall j | 0 <= j < |after| :: end < after[j].before <= n
    ensures Covers(hunk, before + hunk + after, start, end, n)
    ensures LinesBelow(before + hunk + after, start) == LinesIn(before) + LinesBelow(hunk, start)
    ensures LinesBelow(before + hunk + after, end + 1) == LinesIn(before) + LinesBelow(hunk, end + 1)
  {
    hide InsertedAt;
    forall index | start <= index <= end
      ensures InsertedAt(hunk, index) == InsertedAt(before + hunk + after, index)
    {
      NoneInserted(before, index);
      NoneInserted(after, index);
      InsertedAppend(before, hunk, index);
      InsertedAppend(before + hunk, after, index);
    }
    AnyAtAppend(before, hunk, n);
    AnyAtAppend(before + hunk, after, n);
    LinesAppend(before, hunk);
    LinesAppend(before + hunk, after);
    BelowAll(before, start);
    BelowAll(before, end + 1);
    BelowAll(after, start);
    BelowAll(after, end + 1);
  }

  /** What the reader has when it reaches a hunk's first line. */
  lemma ReachesStart(was: seq<Line>, lines: seq<string>, endsWithNewline: bool, insertions: seq<Insertion>,
                     hunks: seq<Hunk>, k: nat, position: nat, start: nat)
    requires Fits(insertions, |lines|) && was == OldLines(lines, endsWithNewline) && k < |insertions|
    requires Done(was, lines, endsWithNewline, insertions, hunks, k, position)
    requires start == Max(0, insertions[k].before - DIFF_CONTEXT) && start < |lines|
    ensures position <= start && ApplyHunks(was, hunks).Some?
    ensures k > 0 ==> position < start
    ensures ApplyHunks(was, hunks).value.position == position
    ensures ApplyHunks(was, hunks).value.output + was[position..start]
            == SplicedTo(lines, endsWithNewline, insertions, start)
  {
    hide InsertedAt;
    NoneBefore(insertions, k, start);
    if k == 0 {
      FirstGap(lines, endsWithNewline, insertions, start);
    } else {
      Gap(lines, endsWithNewline, insertions, position, start);
    }
  }

  /** No insertion from the k-th on stands before the k-th one's context. */
  lemma NoneBefore(insertions: seq<Insertion>, k: nat, start: int)
    requires Ordered(insertions) || Near(insertions)
    requires k < |insertions| && start == Max(0, insertions[k].before - DIFF_CONTEXT)
    ensures forall j | k <= j < |insertions| :: start <= insertions[j].before
  {
    forall j | k < j < |insertions| && Ordered(insertions)
      ensures insertions[k].before <= insertions[j].before
    {
    }
  }

  /** The hunk the source prints for a group, once its body is written. */
  function GroupHunk(start: nat, end: nat, added: nat, inserted: nat, body: seq<PatchLine>): Hunk
    requires start <= end
  {
    Hunk(start + 1, end - start, start + 1 + added, end - start + inserted, body)
  }

  /** Applying a group's hunk takes the new file from its start to its end. */
  lemma HunkApplies(was: seq<Line>, lines: seq<string>, endsWithNewline: bool, insertions: seq<Insertion>,
                    st: State, start: nat, end: nat, added: nat, inserted: nat, body: seq<PatchLine>)
    requires was == OldLines(lines, endsWithNewline) && start < end <= |lines|
    requires st.position <= start
    requires st.output + was[st.position..start] == SplicedTo(lines, endsWithNewline, insertions, start)
    requires OldSide(body) == was[start..end]
    requires NewSide(body) == Stretch(lines, endsWithNewline, insertions, start, end, true)
    requires LinesBelow(insertions, start) == added && LinesBelow(insertions, end + 1) == added + inserted
    ensures ApplyHunk(was, st, GroupHunk(start, end, added, inserted, body)) ==
            Some(State(end, SplicedThrough(lines, endsWithNewline, insertions, end)))
  {
    hide OldSide, NewSide, OldLines;
    SplicedLength(lines, endsWithNewline, insertions, start);
    SplicedLength(lines, endsWithNewline, insertions, end);
    BelowNext(insertions, end);
    StretchRejoins(lines, endsWithNewline, insertions, start, end);
  }

  /** A stretch is what follows the file before it, and holds its old lines and the inserted ones. */
  lemma {:induction false} StretchRejoins(lines: seq<string>, endsWithNewline: bool, insertions: seq<Insertion>,
                                          start: nat, index: nat)
    requires start <= index <= |lines|
    ensures SplicedTo(lines, endsWithNewline, insertions, start) +
            Stretch(lines, endsWithNewline, insertions, start, index, true)
         == SplicedThrough(lines, endsWithNewline, insertions, index)
  {
    hide InsertedAt, OldLines, EndsAfter;
    SplicedLength(lines, endsWithNewline, insertions, start);
    SplicedLength(lines, endsWithNewline, insertions, index);
    BelowGrows(insertions, start, index);
    if start < index {
      StretchRejoins(lines, endsWithNewline, insertions, start, index - 1);
      StretchNext(lines, endsWithNewline, insertions, start, index - 1);
    } else {
      StretchEmpty(lines, endsWithNewline, insertions, start);
    }
    StretchThrough(lines, endsWithNewline, insertions, start, index);
  }

  /** Printing a hunk's header and body is printing the hunk. */
  lemma PrintedHunk(head: string, hunks: seq<Hunk>, h: Hunk, out: string, written: string, oldSide: seq<Line>,
                    newSide: seq<Line>)
    requires out == head + RawText(RawHunks(hunks)) + HeaderLine(h.oldStart, h.oldCount, h.newStart, h.newCount) + "\n"
    requires Wrote(out, written, h.body, oldSide, newSide)
    ensures written == head + RawText(RawHunks(hunks + [h]))
  {
    hide HeaderLine, RawBody, RawHunks;
    var header := HeaderLine(h.oldStart, h.oldCount, h.newStart, h.newCount);
    RawHunksAppend(hunks, h);
    RawTextConcat(RawHunks(hunks), RawHunk(h));
    RawTextConcat([header], RawBody(h.body));
    OneRawLine(header);
  }

  /** How many insertions share the first one's hunk, and where that hunk ends. */
  method MergeHunk(n: nat, insertions: seq<Insertion>) returns (count: nat, end: nat)
    requires insertions != [] && InFile(insertions, n)
    ensures 0 < count <= |insertions|
    ensures end == Min(n, insertions[count - 1].before + DIFF_CONTEXT)
    ensures Fits(insertions, n) ==>
        && (forall j | 0 <= j < count :: insertions[j].before <= end)
        && (forall j | count <= j < |insertions| :: insertions[j].before - DIFF_CONTEXT > end)
    ensures Near(insertions) || Apart(insertions) ==> count == 2
  {
    end := Min(n, insertions[0].before + DIFF_CONTEXT);
    count := 1;
    while count < |insertions| && insertions[count].before - DIFF_CONTEXT <= end
      invariant 0 < count <= |insertions|
      invariant end == Min(n, insertions[count - 1].before + DIFF_CONTEXT)
    {
      end := Min(n, insertions[count].before + DIFF_CONTEXT);
      count := count + 1;
    }
    assert Ordered(insertions) && count < |insertions| ==>
      forall j | count <= j < |insertions| :: insertions[count].before <= insertions[j].before;
    assert Ordered(insertions) ==> forall j | 0 <= j < count :: insertions[j].before <= insertions[count - 1].before;
  }

  method CountInserted(hunk: seq<Insertion>) returns (inserted: nat)
    ensures inserted == LinesIn(hunk)
  {
    inserted := 0;
    assert hunk[..0] == [];
    for k := 0 to |hunk|
      invariant inserted == LinesIn(hunk[..k])
    {
      assert hunk[..k + 1] == hunk[..k] + [hunk[k]];
      LinesAppend(hunk[..k], [hunk[k]]);
      assert LinesIn([hunk[k]]) == |hunk[k].lines|;
      inserted := inserted + |hunk[k].lines|;
    }
    assert hunk[..|hunk|] == hunk;
  }

  ghost predicate Finished(was: seq<Line>, hunks: seq<Hunk>, result: seq<Line>) {
    && (forall i | 0 <= i < |hunks| :: OneLineBody(hunks[i].body))
    && var st := ApplyHunks(was, hunks);
       st.Some? && st.value.position <= |was| && st.value.output + was[st.value.position..] == result
  }

  lemma DoneIsFinished(was: seq<Line>, lines: seq<string>, endsWithNewline: bool, insertions: seq<Insertion>,
                       hunks: seq<Hunk>, position: nat)
    requires was == OldLines(lines, endsWithNewline) && lines != [] && Fits(insertions, |lines|)
    requires Done(was, lines, endsWithNewline, insertions, hunks, |insertions|, position)
    ensures Finished(was, hunks, Spliced(lines, endsWithNewline, insertions))
  {
    hide InsertedAt;
    var n := |lines|;
    assert was[n..] == [] && was[..n] == was && was[0..] == was;
    if position < n {
      NoneInserted(insertions, n);
      if insertions == [] {
        FirstGap(lines, endsWithNewline, insertions, n);
      } else {
        Gap(lines, endsWithNewline, insertions, position, n);
      }
      assert was[position..n] == was[position..];
    }
  }

  lemma GroupLines(insertions: seq<Insertion>, k: nat, count: nat, start: nat, end: nat, n: nat)
    requires Fits(insertions, n) && 0 < count && k + count <= |insertions| && start <= end <= n
    requires forall j | 0 <= j < k :: insertions[j].before < start
    requires forall j | k <= j < k + count :: start <= insertions[j].before <= end
    requires forall j | k + count <= j < |insertions| :: insertions[j].before > end
    ensures LinesBelow(insertions, start) == LinesIn(insertions[..k])
    ensures LinesBelow(insertions, end + 1) == LinesIn(insertions[..k]) + LinesIn(insertions[k..k + count])
  {
    hide LinesBelow, LinesIn, Covers, InsertedAt;
    var before, hunk, after := insertions[..k], insertions[k..k + count], insertions[k + count..];
    assert insertions == before + hunk + after;
    GroupCovers(before, hunk, after, start, end, n);
    BelowAll(hunk, start);
    BelowAll(hunk, end + 1);
  }

  /** A group's hunk applies where the ones before it left off. */
  lemma GroupApplies(was: seq<Line>, lines: seq<string>, endsWithNewline: bool, insertions: seq<Insertion>,
                     hunks: seq<Hunk>, k: nat, position: nat, count: nat, start: nat, end: nat, body: seq<PatchLine>)
    requires Fits(insertions, |lines|) && was == OldLines(lines, endsWithNewline) && lines != []
    requires 0 < count && k + count <= |insertions|
    requires Done(was, lines, endsWithNewline, insertions, hunks, k, position)
    requires start == Max(0, insertions[k].before - DIFF_CONTEXT) && start < end <= |lines|
    requires forall j | 0 <= j < k :: insertions[j].before < start
    requires forall j | k <= j < k + count :: start <= insertions[j].before <= end
    requires forall j | k + count <= j < |insertions| :: insertions[j].before > end
    requires OldSide(body) == was[start..end]
    requires NewSide(body) == Stretch(lines, endsWithNewline, insertions, start, end, true)
    ensures var h := GroupHunk(start, end, LinesIn(insertions[..k]), LinesIn(insertions[k..k + count]), body);
            ApplyHunks(was, hunks + [h]) == Some(State(end, SplicedThrough(lines, endsWithNewline, insertions, end)))
  {
    hide OldSide, NewSide, Stretch, OldLines, SplicedTo, SplicedThrough, ApplyHunk, Done, LinesIn, LinesBelow, Fits;
    var h := GroupHunk(start, end, LinesIn(insertions[..k]), LinesIn(insertions[k..k + count]), body);
    ReachesStart(was, lines, endsWithNewline, insertions, hunks, k, position, start);
    GroupLines(insertions, k, count, start, end, |lines|);
    HunkApplies(was, lines, endsWithNewline, insertions, ApplyHunks(was, hunks).value, start, end,
                LinesIn(insertions[..k]), LinesIn(insertions[k..k + count]), body);
    assert (hunks + [h])[..|hunks|] == hunks;
  }

  /** A group lies inside its hunk, and the groups before it before its hunk. */
  lemma GroupInside(insertions: seq<Insertion>, n: nat, k: nat, position: nat, count: nat, start: int, end: int)
    requires Fits(insertions, n) && n > 0 && 0 < count && k + count <= |insertions|
    requires k > 0 ==> forall j | 0 <= j < k :: insertions[j].before <= position
    requires k > 0 ==> forall j | k <= j < |insertions| :: insertions[j].before - DIFF_CONTEXT > position
    requires start == Max(0, insertions[k].before - DIFF_CONTEXT)
    requires end == Min(n, insertions[k + count - 1].before + DIFF_CONTEXT)
    requires forall j | k + count <= j < |insertions| :: insertions[j].before - DIFF_CONTEXT > end
    ensures start < end <= n
    ensures forall j | 0 <= j < k :: insertions[j].before < start
    ensures forall j | k <= j < k + count :: start <= insertions[j].before <= end
  {
    NoneBefore(insertions, k, start);
    var last := k + count - 1;
    forall j | k <= j < k + count
      ensures insertions[j].before <= end
    {
      assert Ordered(insertions) && j < last ==> insertions[j].before <= insertions[last].before;
    }
  }

  /** One more group taken. */
  lemma GroupDone(was: seq<Line>, lines: seq<string>, endsWithNewline: bool, insertions: seq<Insertion>,
                  hunks: seq<Hunk>, k: nat, position: nat, count: nat, start: nat, end: nat, body: seq<PatchLine>)
    requires Fits(insertions, |lines|) && was == OldLines(lines, endsWithNewline) && lines != []
    requires 0 < count && k + count <= |insertions|
    requires Done(was, lines, endsWithNewline, insertions, hunks, k, position)
    requires start == Max(0, insertions[k].before - DIFF_CONTEXT)
    requires end == Min(|lines|, insertions[k + count - 1].before + DIFF_CONTEXT)
    requires forall j | k + count <= j < |insertions| :: insertions[j].before - DIFF_CONTEXT > end
    requires OneLineBody(body) && start <= end && OldSide(body) == was[start..end]
    requires NewSide(body) == Stretch(lines, endsWithNewline, insertions, start, end, true)
    ensures var h := GroupHunk(start, end, LinesIn(insertions[..k]), LinesIn(insertions[k..k + count]), body);
            Done(was, lines, endsWithNewline, insertions, hunks + [h], k + count, end)
  {
    hide OldSide, NewSide, Stretch, OldLines, SplicedTo, SplicedThrough, ApplyHunk, ApplyHunks, LinesIn, Fits;
    GroupInside(insertions, |lines|, k, position, count, start, end);
    GroupApplies(was, lines, endsWithNewline, insertions, hunks, k, position, count, start, end, body);
  }

  /** One hunk: its header, with the running offset, and its body. */
  method WriteHunk(out: string, lines: seq<string>, endsWithNewline: bool, ghost insertions: seq<Insertion>,
                   hunk: seq<Insertion>, start: nat, end: nat, added: nat)
    returns (written: string, inserted: nat, ghost body: seq<PatchLine>)
    requires end <= |lines| && OneLine(lines)
    requires LineByLine(hunk)
    requires start <= end ==> Covers(hunk, insertions, start, end, |lines|)
    ensures inserted == LinesIn(hunk)
    ensures var head := out + HeaderLine(start + 1, end - start, start + 1 + added, end - start + inserted) + "\n";
            if start <= end then
              Wrote(head, written, body, OldLines(lines, endsWithNewline)[start..end],
                    Stretch(lines, endsWithNewline, insertions, start, end, true))
            else written == head && body == []
  {
    hide Wrote, Stretch, HeaderLine, OldLines, LinesIn, Covers;
    inserted := CountInserted(hunk);
    written := out + HeaderLine(start + 1, end - start, start + 1 + added, end - start + inserted) + "\n";
    written, body := WriteBody(written, lines, endsWithNewline, insertions, hunk, start, end);
  }

  /** The printing of placed insertions, once the first k are done. */
  ghost predicate Printed(name: string, lines: seq<string>, endsWithNewline: bool, insertions: seq<Insertion>,
                          out: string, hunks: seq<Hunk>, added: nat, k: nat, position: nat)
    requires k <= |insertions|
  {
    && added == LinesIn(insertions[..k])
    && out == FileHeader(name) + RawText(RawHunks(hunks))
    && Done(OldLines(lines, endsWithNewline), lines, endsWithNewline, insertions, hunks, k, position)
  }

  /** One more hunk printed. */
  lemma PrintsMore(name: string, lines: seq<string>, endsWithNewline: bool, insertions: seq<Insertion>,
                   out: string, hunks: seq<Hunk>, added: nat, k: nat, position: nat,
                   count: nat, start: nat, end: nat, inserted: nat, written: string, body: seq<PatchLine>)
    requires Fits(insertions, |lines|) && lines != [] && 0 < count && k + count <= |insertions|
    requires Printed(name, lines, endsWithNewline, insertions, out, hunks, added, k, position)
    requires start == Max(0, insertions[k].before - DIFF_CONTEXT)
    requires end == Min(|lines|, insertions[k + count - 1].before + DIFF_CONTEXT)
    requires forall j | k + count <= j < |insertions| :: insertions[j].before - DIFF_CONTEXT > end
    requires start <= end && inserted == LinesIn(insertions[k..k + count])
    requires Wrote(out + HeaderLine(start + 1, end - start, start + 1 + added, end - start + inserted) + "\n",
                   written, body, OldLines(lines, endsWithNewline)[start..end],
                   Stretch(lines, endsWithNewline, insertions, start, end, true))
    ensures Printed(name, lines, endsWithNewline, insertions, written,
                    hunks + [GroupHunk(start, end, added, inserted, body)],
                    added + inserted, k + count, end)
  {
    hide Wrote, Stretch, RawText, RawHunks, FileHeader, HeaderLine, OldLines, LinesIn, Done, Fits;
    var was := OldLines(lines, endsWithNewline);
    var head := out + HeaderLine(start + 1, end - start, start + 1 + added, end - start + inserted) + "\n";
    WroteSides(head, written, body, was[start..end], Stretch(lines, endsWithNewline, insertions, start, end, true));
    GroupDone(was, lines, endsWithNewline, insertions, hunks, k, position, count, start, end, body);
    PrintedHunk(FileHeader(name), hunks, GroupHunk(start, end, added, inserted, body), head, written,
                was[start..end], Stretch(lines, endsWithNewline, insertions, start, end, true));
    LinesAppend(insertions[..k], insertions[k..k + count]);
    assert insertions[..k + count] == insertions[..k] + insertions[k..k + count];
  }

  /**
  What is printed of two insertions that are apart: one hunk between the second one's
  context and the first one's, with neither of them in it, under a header that counts both.
  */
  ghost predicate IsStray(out: string, name: string, insertions: seq<Insertion>, body: seq<PatchLine>)
    requires Apart(insertions)
  {
    var start, end := insertions[0].before - DIFF_CONTEXT, insertions[1].before + DIFF_CONTEXT;
    && out == FileHeader(name) + HeaderLine(start + 1, end - start, start + 1, end - start + LinesIn(insertions)) + "\n"
              + RawText(RawBody(body))
    && OneLineBody(body)
    && |NewSide(body)| == Max(0, end - start)
  }

  lemma StrayCovers(insertions: seq<Insertion>, n: nat)
    requires Apart(insertions) && InFile(insertions, n)
    ensures var start, end := insertions[0].before - DIFF_CONTEXT, insertions[1].before + DIFF_CONTEXT;
            && Max(0, start) == start && Min(n, end) == end
            && (start <= end ==> Covers(insertions, [], start, end, n))
  {
    var start, end := insertions[0].before - DIFF_CONTEXT, insertions[1].before + DIFF_CONTEXT;
    forall index: nat | start <= index <= end
      ensures InsertedAt(insertions, index) == []
    {
      NoneInserted(insertions, index);
    }
  }

  lemma StrayWritten(name: string, lines: seq<string>, endsWithNewline: bool, insertions: seq<Insertion>,
                     start: nat, end: nat, written: string, body: seq<PatchLine>)
    requires Apart(insertions) && InFile(insertions, |lines|)
    requires start == insertions[0].before - DIFF_CONTEXT && end == insertions[1].before + DIFF_CONTEXT <= |lines|
    requires var head := FileHeader(name) +
             HeaderLine(start + 1, end - start, start + 1, end - start + LinesIn(insertions)) + "\n";
             if start <= end then
               Wrote(head, written, body, OldLines(lines, endsWithNewline)[start..end],
                     Stretch(lines, endsWithNewline, [], start, end, true))
             else written == head && body == []
    ensures IsStray(written, name, insertions, body)
  {
    hide HeaderLine, OldLines, LinesIn, RawText, FileHeader, RawBody, NewSide, OldSide, Stretch, OneLineBody;
    if start <= end {
      StretchOfNothing(lines, endsWithNewline, start, end);
    } else {
      NothingPrinted();
    }
  }

  lemma StretchOfNothing(lines: seq<string>, endsWithNewline: bool, start: nat, end: nat)
    requires start <= end <= |lines|
    ensures |Stretch(lines, endsWithNewline, [], start, end, true)| == end - start
  {
    SplicedLength(lines, endsWithNewline, [], start);
    SplicedLength(lines, endsWithNewline, [], end);
    assert InsertedAt([], end) == [];
  }

  lemma NothingPrinted()
    ensures RawText(RawBody([])) == "" && NewSide([]) == [] && OneLineBody([])
  {
  }

  /**
  unifiedDiff: the printed patch, with the hunks it holds when the insertions are
  placed, or the body of its one hunk when they are two that are apart.
  */
  method UnifiedDiff(name: string, lines: seq<string>, endsWithNewline: bool, insertions: seq<Insertion>)
    returns (out: string, ghost hunks: seq<Hunk>, ghost body: seq<PatchLine>)
    requires lines != [] && OneLine(lines) && InFile(insertions, |lines|)
    requires Fits(insertions, |lines|) || Apart(insertions)
    ensures Fits(insertions, |lines|) ==>
        && out == FileHeader(name) + RawText(RawHunks(hunks))
        && Finished(OldLines(lines, endsWithNewline), hunks, Spliced(lines, endsWithNewline, insertions))
        && if insertions == [] then hunks == [] else hunks != [] && hunks[0].oldCount > 0
    ensures Apart(insertions) ==> IsStray(out, name, insertions, body)
  {
    hide Wrote, Stretch, HeaderLine, OldLines, LinesIn, Finished, Done, Fits, Printed, IsStray, FileHeader, Covers,
      RawText, RawHunks;
    ghost var was := OldLines(lines, endsWithNewline);
    ghost var k, position := 0, 0;
    var rest, added := insertions, 0;
    out, hunks, body := FileHeader(name), [], [];
    Starts(lines, endsWithNewline, insertions, name);
    FitsOrApart(insertions, |lines|);
    while rest != []
      invariant k <= |insertions| && rest == insertions[k..]
      invariant Fits(insertions, |lines|) ==>
          Printed(name, lines, endsWithNewline, insertions, out, hunks, added, k, position)
      invariant Apart(insertions) ==>
          if k == 0 then out == FileHeader(name) && added == 0 else rest == [] && IsStray(out, name, insertions, body)
      decreases |rest|
    {
      var start := Max(0, rest[0].before - DIFF_CONTEXT);
      RestInFile(insertions, k, |lines|);
      var count, end := MergeHunk(|lines|, rest);
      var hunk := rest[..count];
      rest := rest[count..];
      assert hunk == insertions[k..k + count];
      ghost var shown := if Apart(insertions) then [] else insertions;
      if Apart(insertions) {
        StrayCovers(insertions, |lines|);
        assert hunk == insertions;
      } else {
        StretchIsCovered(lines, endsWithNewline, insertions, name, out, hunks, added, k, position, count, start, end);
      }
      var inserted;
      ghost var before := out;
      HunkByLine(insertions, k, count, |lines|);
      out, inserted, body := WriteHunk(out, lines, endsWithNewline, shown, hunk, start, end, added);
      if Apart(insertions) {
        StrayWritten(name, lines, endsWithNewline, insertions, start, end, out, body);
      } else {
        PrintsMore(name, lines, endsWithNewline, insertions, before, hunks, added, k, position,
                   count, start, end, inserted, out, body);
        hunks := hunks + [GroupHunk(start, end, added, inserted, body)];
      }
      added := added + inserted;
      k, position := k + count, end;
    }
    if Fits(insertions, |lines|) {
      PrintedIsDone(name, lines, endsWithNewline, insertions, out, hunks, added, position);
    }
  }

  lemma FitsOrApart(insertions: seq<Insertion>, n: nat)
    ensures Fits(insertions, n) ==> !Apart(insertions)
  {
    if |insertions| == 2 {
      Pairs(insertions);
    }
  }

  lemma HunkByLine(insertions: seq<Insertion>, k: nat, count: nat, n: nat)
    requires k + count <= |insertions| && InFile(insertions, n)
    ensures LineByLine(insertions[k..k + count])
  {
  }

  lemma PrintedIsDone(name: string, lines: seq<string>, endsWithNewline: bool, insertions: seq<Insertion>,
                      out: string, hunks: seq<Hunk>, added: nat, position: nat)
    requires Fits(insertions, |lines|) && lines != []
    requires Printed(name, lines, endsWithNewline, insertions, out, hunks, added, |insertions|, position)
    ensures out == FileHeader(name) + RawText(RawHunks(hunks))
    ensures Finished(OldLines(lines, endsWithNewline), hunks, Spliced(lines, endsWithNewline, insertions))
    ensures if insertions == [] then hunks == [] else hunks != [] && hunks[0].oldCount > 0
  {
    hide Finished, RawText, RawHunks, FileHeader, OldLines, Spliced;
    DoneIsFinished(OldLines(lines, endsWithNewline), lines, endsWithNewline, insertions, hunks, position);
    DoneHasHunks(OldLines(lines, endsWithNewline), lines, endsWithNewline, insertions, hunks, position);
  }

  lemma Starts(lines: seq<string>, endsWithNewline: bool, insertions: seq<Insertion>, name: string)
    ensures Printed(name, lines, endsWithNewline, insertions, FileHeader(name), [], 0, 0, 0)
    ensures insertions[0..] == insertions
  {
    assert FileHeader(name) + "" == FileHeader(name);
  }

  lemma RestInFile(insertions: seq<Insertion>, k: nat, n: nat)
    requires k <= |insertions| && InFile(insertions, n)
    ensures InFile(insertions[k..], n)
    ensures Fits(insertions, n) ==> Fits(insertions[k..], n)
    ensures k == 0 ==> insertions[k..] == insertions
  {
    assert forall j | 0 <= j < |insertions| - k :: insertions[k..][j] == insertions[k + j];
    if k > 0 && Near(insertions) {
      assert Ordered(insertions[k..]);
    }
  }

  lemma WroteSides(out: string, written: string, body: seq<PatchLine>, oldSide: seq<Line>, newSide: seq<Line>)
    requires Wrote(out, written, body, oldSide, newSide)
    ensures OneLineBody(body) && OldSide(body) == oldSide && NewSide(body) == newSide
  {
  }

  lemma DoneHasHunks(was: seq<Line>, lines: seq<string>, endsWithNewline: bool, insertions: seq<Insertion>,
                     hunks: seq<Hunk>, position: nat)
    requires Done(was, lines, endsWithNewline, insertions, hunks, |insertions|, position)
    ensures if insertions == [] then hunks == [] else hunks != [] && hunks[0].oldCount > 0
  {
  }

  lemma StretchIsCovered(lines: seq<string>, endsWithNewline: bool, insertions: seq<Insertion>, name: string,
                         out: string,
                         hunks: seq<Hunk>, added: nat, k: nat, position: nat, count: nat, start: nat, end: nat)
    requires Fits(insertions, |lines|) && lines != [] && 0 < count && k + count <= |insertions|
    requires Printed(name, lines, endsWithNewline, insertions, out, hunks, added, k, position)
    requires start == Max(0, insertions[k].before - DIFF_CONTEXT)
    requires end == Min(|lines|, insertions[k + count - 1].before + DIFF_CONTEXT)
    requires forall j | k + count <= j < |insertions| :: insertions[j].before - DIFF_CONTEXT > end
    ensures start < end <= |lines|
    ensures Covers(insertions[k..k + count], insertions, start, end, |lines|)
  {
    hide InsertedAt, SplicedThrough, ApplyHunks, LinesIn, RawText, RawHunks, FileHeader, Fits, Covers;
    GroupInside(insertions, |lines|, k, position, count, start, end);
    InFileOf(insertions, |lines|);
    assert insertions == insertions[..k] + insertions[k..k + count] + insertions[k + count..];
    GroupCovers(insertions[..k], insertions[k..k + count], insertions[k + count..], start, end, |lines|);
  }

  lemma InFileOf(insertions: seq<Insertion>, n: nat)
    requires Fits(insertions, n)
    ensures forall j | 0 <= j < |insertions| :: insertions[j].before <= n
  {
  }

  // ---- A file's patch -----------------------------------------------------

  /** A header that counts lines its body does not print is no hunk of any file. */
  lemma StrayDoesNotApply(patch: string, name: string, source: string, insertions: seq<Insertion>, body: seq<PatchLine>)
    requires Apart(insertions) && IsStray(patch, name, insertions, body) && LinesIn(insertions) > 0
    ensures ApplyPatch(patch, name, source) == None
  {
    hide HeaderLine, ReadHeader, RawBody, LinesIn, FileLines, FileHeader, RawText, SplitRaw, ReadHunks, ApplyHunks,
      NewSide, OneLineBody, Unheaded;
    var start, end := insertions[0].before - DIFF_CONTEXT, insertions[1].before + DIFF_CONTEXT;
    var count := end - start + LinesIn(insertions);
    var header := HeaderLine(start + 1, end - start, start + 1, count);
    HeaderIsOneLine(start + 1, end - start, start + 1, count);
    HeaderReads(start + 1, end - start, start + 1, count);
    OneHunkSplits(name, header, body);
    if end - start < 0 || count < 0 {
      UnreadableHunk([header] + RawBody(body));
    } else {
      var h := Hunk(start + 1, end - start, start + 1, count, body);
      OneHunk(h);
      HunksRead([h]);
      MiscountedHunk(FileLines(source), h);
    }
  }

  lemma OneHunkSplits(name: string, header: string, body: seq<PatchLine>)
    requires '\n' !in header && OneLineBody(body)
    ensures var patch := FileHeader(name) + header + "\n" + RawText(RawBody(body));
            Unheaded(patch, name).Some?
            && SplitRaw(Unheaded(patch, name).value) == Some([header] + RawBody(body))
  {
    hide FileHeader, RawBody, RawText, SplitRaw, Unheaded;
    var rest := header + "\n" + RawText(RawBody(body));
    assert FileHeader(name) + header + "\n" + RawText(RawBody(body)) == FileHeader(name) + rest;
    HeaderGone(name, rest);
    BodyIsOneLine(body);
    RawTextConcat([header], RawBody(body));
    OneRawLine(header);
    SplitRawReads([header] + RawBody(body));
  }

  lemma MiscountedHunk(was: seq<Line>, h: Hunk)
    requires |NewSide(h.body)| != h.newCount
    ensures ApplyHunks(was, [h]) == None
  {
    hide NewSide, OldSide;
    assert [h][..0] == [];
  }

  lemma UnreadableHunk(raws: seq<string>)
    requires raws != [] && ReadHeader(raws[0]).None?
    ensures ReadHunks(raws) == None
  {
    hide ReadHeader, ReadBody, BodyLength;
  }

  lemma OneHunk(h: Hunk)
    ensures RawHunks([h]) == [HeaderLine(h.oldStart, h.oldCount, h.newStart, h.newCount)] + RawBody(h.body)
  {
    hide HeaderLine, RawBody;
    assert [h][1..] == [];
    assert RawHunks([]) == [];
    assert RawHunk(h) + [] == RawHunk(h);
  }

  /**
  The patch of the lines a file splits into. Of a file that is not empty it applies, and
  gives the spliced file, when the insertions are placed. An empty file splits into one
  empty line, so its patch does not apply; nor does that of two insertions that are apart.
  */
  method PatchOf(name: string, source: string, insertions: seq<Insertion>) returns (out: string)
    requires InFile(insertions, |SplitLines(source)|)
    requires Fits(insertions, |SplitLines(source)|) || Apart(insertions)
    ensures Fits(insertions, |SplitLines(source)|) && source != "" ==>
        ApplyPatch(out, name, source) ==
        Some(FileText(Spliced(SplitLines(source), EndsWithNewline(source), insertions)))
    ensures Fits(insertions, |SplitLines(source)|) && source == "" && insertions != [] ==>
        ApplyPatch(out, name, source) == None
    ensures Apart(insertions) && LinesIn(insertions) > 0 ==> ApplyPatch(out, name, source) == None
  {
    hide Spliced, RawText, RawHunks, FileHeader, SplitLines, ApplyPatch, Fits, IsStray, LinesIn;
    ghost var hunks, body;
    out, hunks, body := UnifiedDiff(name, SplitLines(source), EndsWithNewline(source), insertions);
    SplitLinesAreFileLines(source);
    if Fits(insertions, |SplitLines(source)|) {
      FinishedIsOneLine(hunks, OldLines(SplitLines(source), EndsWithNewline(source)),
                        Spliced(SplitLines(source), EndsWithNewline(source), insertions));
      PrintedPatchApplies(name, hunks, source);
      if source == "" && insertions != [] {
        NothingToRemove(hunks);
      }
    }
    if Apart(insertions) && LinesIn(insertions) > 0 {
      StrayDoesNotApply(out, name, source, insertions, body);
    }
  }

  lemma FinishedIsOneLine(hunks: seq<Hunk>, was: seq<Line>, result: seq<Line>)
    requires Finished(was, hunks, result)
    ensures forall i | 0 <= i < |hunks| :: OneLineBody(hunks[i].body)
  {
  }

  /** The patched file ends with a newline when the old one did, or when something goes in at its end. */
  lemma NewlineKeptOrGained(source: string, insertions: seq<Insertion>)
    requires source != ""
    ensures EndsWithNewline(FileText(Spliced(SplitLines(source), EndsWithNewline(source), insertions)))
       <==> EndsWithNewline(source) || AnyAt(insertions, |SplitLines(source)|)
  {
    hide InsertedAt, SplitLines, EndsWithNewline, Spliced;
    var lines := SplitLines(source);
    LastLineOf(source);
    LastOfSpliced(lines, EndsWithNewline(source), insertions);
    LastCharacter(Spliced(lines, EndsWithNewline(source), insertions));
  }

  lemma LastOfSpliced(lines: seq<string>, endsWithNewline: bool, insertions: seq<Insertion>)
    requires lines != [] && OneLine(lines)
    requires !endsWithNewline ==> lines[|lines| - 1] != ""
    ensures var spliced := Spliced(lines, endsWithNewline, insertions);
            && spliced != []
            && spliced[|spliced| - 1].newline == EndsAfter(lines, endsWithNewline, insertions)
            && (!spliced[|spliced| - 1].newline ==> spliced[|spliced| - 1].text == lines[|lines| - 1])
  {
    hide InsertedAt;
    var n := |lines|;
    var body, tail := SplicedTo(lines, endsWithNewline, insertions, n), InsertedAt(insertions, n);
    assert body[|body| - 1] == OldLines(lines, EndsAfter(lines, endsWithNewline, insertions))[n - 1];
    assert Spliced(lines, endsWithNewline, insertions) == body + tail;
    InsertedAreComplete(insertions, n);
    if !AnyAt(insertions, n) {
      NoneInserted(insertions, n);
    }
    assert (body + tail)[|body + tail| - 1] == if tail == [] then body[|body| - 1] else tail[|tail| - 1];
  }

  /** A file's text ends as its last line does. */
  lemma {:induction false} LastCharacter(lines: seq<Line>)
    requires lines != []
    requires var last := lines[|lines| - 1]; last.newline || (last.text != "" && '\n' !in last.text)
    ensures FileText(lines) != "" && (EndsWithNewline(FileText(lines)) <==> lines[|lines| - 1].newline)
  {
    if |lines| > 1 {
      LastCharacter(lines[1..]);
    } else {
      assert lines[1..] == [];
      var last := lines[0];
      assert FileText(lines) == last.text + (if last.newline then "\n" else "");
      assert last.text != "" ==> last.text[|last.text| - 1] in last.text;
    }
  }

  lemma {:induction false} InsertedAreComplete(insertions: seq<Insertion>, index: nat)
    ensures forall k | 0 <= k < |InsertedAt(insertions, index)| :: InsertedAt(insertions, index)[k].newline
  {
    if insertions != [] {
      InsertedAreComplete(insertions[1..], index);
    }
  }

  /** Only a file's last line can be empty without a newline, and only in an empty file. */
  lemma {:induction false} LastOfSplit(text: string)
    requires text != "" && !EndsWithNewline(text)
    ensures SplitAtNewlines(text)[|SplitAtNewlines(text)| - 1] != ""
    decreases |text|
  {
    hide CutAt;
    var cut := CutAt(text, '\n');
    if cut.found {
      assert text[|text| - 1] == (['\n'] + cut.after)[|cut.after|];
      LastOfSplit(cut.after);
    }
  }

  lemma LastLineOf(source: string)
    requires source != ""
    ensures !EndsWithNewline(source) ==> SplitLines(source)[|SplitLines(source)| - 1] != ""
  {
    if !EndsWithNewline(source) {
      LastOfSplit(source);
    }
  }

  lemma {:induction false} NothingToRemove(hunks: seq<Hunk>)
    requires hunks != [] && hunks[0].oldCount > 0
    ensures ApplyHunks([], hunks) == None
  {
    if |hunks| > 1 {
      NothingToRemove(hunks[..|hunks| - 1]);
    } else {
      assert hunks[..0] == [];
    }
  }
}
