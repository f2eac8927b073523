/**
What `costroid init` means its patch to do: the old file with every insertion's
lines put before the line its index names, and a final newline kept, or gained
when something goes in at the end.
*/
module Splice {
  import opened PatchFormat

  datatype Insertion = Insertion(before: nat, lines: seq<string>)

  function Complete(lines: seq<string>): (r: seq<Line>)
    ensures |r| == |lines|
  {
    seq(|lines|, i requires 0 <= i < |lines| => Line(lines[i], true))
  }

  /** The file whose lines these are; only its last line can lack a newline. */
  function OldLines(lines: seq<string>, endsWithNewline: bool): (r: seq<Line>)
    ensures |r| == |lines|
  {
    seq(|lines|, i requires 0 <= i < |lines| => Line(lines[i], i < |lines| - 1 || endsWithNewline))
  }

  predicate AnyAt(insertions: seq<Insertion>, index: nat) {
    exists k | 0 <= k < |insertions| :: insertions[k].before == index
  }

  predicate EndsAfter(lines: seq<string>, endsWithNewline: bool, insertions: seq<Insertion>) {
    endsWithNewline || AnyAt(insertions, |lines|)
  }

  /** Every line inserted before one index, in order. */
  function InsertedAt(insertions: seq<Insertion>, index: nat): seq<Line> {
    if insertions == [] then [] else PutAt(insertions[0], index) + InsertedAt(insertions[1..], index)
  }

  function PutAt(insertion: Insertion, index: nat): seq<Line> {
    if insertion.before == index then Complete(insertion.lines) else []
  }

  /** The new file up to, and without, what is inserted before index. */
  function SplicedTo(lines: seq<string>, endsWithNewline: bool, insertions: seq<Insertion>, index: nat): seq<Line>
    requires index <= |lines|
    decreases index, 0
  {
    if index == 0 then [] else
      SplicedThrough(lines, endsWithNewline, insertions, index - 1)
      + [OldLines(lines, EndsAfter(lines, endsWithNewline, insertions))[index - 1]]
  }

  /** The new file up to, and with, what is inserted before index. */
  function SplicedThrough(lines: seq<string>, endsWithNewline: bool, insertions: seq<Insertion>, index: nat): seq<Line>
    requires index <= |lines|
    decreases index, 1
  {
    SplicedTo(lines, endsWithNewline, insertions, index) + InsertedAt(insertions, index)
  }

  /** The new file. */
  function Spliced(lines: seq<string>, endsWithNewline: bool, insertions: seq<Insertion>): seq<Line> {
    SplicedThrough(lines, endsWithNewline, insertions, |lines|)
  }

  ghost predicate Ordered(insertions: seq<Insertion>) {
    forall i, j | 0 <= i < j < |insertions| :: insertions[i].before <= insertions[j].before
  }

  ghost predicate LineByLine(insertions: seq<Insertion>) {
    forall k | 0 <= k < |insertions| :: OneLine(insertions[k].lines)
  }

  /** Insertions into a file of n lines, in any order. */
  ghost predicate InFile(insertions: seq<Insertion>, n: nat) {
    (forall k | 0 <= k < |insertions| :: insertions[k].before <= n) && LineByLine(insertions)
  }

  // ---- How many lines are inserted ----------------------------------------

  function LinesIn(insertions: seq<Insertion>): nat {
    if insertions == [] then 0 else |insertions[0].lines| + LinesIn(insertions[1..])
  }

  function LinesBelow(insertions: seq<Insertion>, index: int): nat {
    if insertions == [] then 0 else
      (if insertions[0].before < index then |insertions[0].lines| else 0) + LinesBelow(insertions[1..], index)
  }

  lemma {:induction false} LinesAppend(a: seq<Insertion>, b: seq<Insertion>)
    ensures LinesIn(a + b) == LinesIn(a) + LinesIn(b)
    ensures forall index :: LinesBelow(a + b, index) == LinesBelow(a, index) + LinesBelow(b, index)
  {
    if a == [] {
      assert a + b == b;
    } else {
      LinesAppend(a[1..], b);
      assert (a + b)[1..] == a[1..] + b;
    }
  }

  lemma {:induction false} InsertedAppend(a: seq<Insertion>, b: seq<Insertion>, index: nat)
    ensures InsertedAt(a + b, index) == InsertedAt(a, index) + InsertedAt(b, index)
  {
    hide PutAt;
    if a == [] {
      assert a + b == b;
    } else {
      InsertedAppend(a[1..], b, index);
      assert (a + b)[1..] == a[1..] + b;
      Associates(PutAt(a[0], index), InsertedAt(a[1..], index), InsertedAt(b, index));
    }
  }

  lemma {:induction false} NoneInserted(insertions: seq<Insertion>, index: nat)
    requires !AnyAt(insertions, index)
    ensures InsertedAt(insertions, index) == []
  {
    if insertions != [] {
      assert insertions[0].before != index;
      forall k | 0 <= k < |insertions[1..]|
        ensures insertions[1..][k].before != index
      {
        assert insertions[1..][k] == insertions[k + 1];
      }
      NoneInserted(insertions[1..], index);
    }
  }

  lemma {:induction false} BelowAll(insertions: seq<Insertion>, index: int)
    ensures (forall k | 0 <= k < |insertions| :: insertions[k].before < index) ==>
              LinesBelow(insertions, index) == LinesIn(insertions)
    ensures (forall k | 0 <= k < |insertions| :: insertions[k].before >= index) ==> LinesBelow(insertions, index) == 0
  {
    if insertions != [] {
      BelowAll(insertions[1..], index);
      assert forall k | 0 <= k < |insertions| - 1 :: insertions[1..][k] == insertions[k + 1];
    }
  }

  lemma {:induction false} BelowNext(insertions: seq<Insertion>, index: nat)
    ensures LinesBelow(insertions, index + 1) == LinesBelow(insertions, index) + |InsertedAt(insertions, index)|
  {
    if insertions != [] {
      BelowNext(insertions[1..], index);
    }
  }

  lemma {:induction false} SplicedLength(lines: seq<string>, endsWithNewline: bool, insertions: seq<Insertion>,
                                         index: nat)
    requires index <= |lines|
    ensures |SplicedTo(lines, endsWithNewline, insertions, index)| == index + LinesBelow(insertions, index)
  {
    if index > 0 {
      SplicedLength(lines, endsWithNewline, insertions, index - 1);
      BelowNext(insertions, index - 1);
    } else {
      BelowAll(insertions, 0);
    }
  }

  // ---- Stretches with nothing inserted ------------------------------------

  /** Between two indexes with no insertion strictly between, the new file is the old one. */
  lemma {:induction false} Gap(lines: seq<string>, endsWithNewline: bool, insertions: seq<Insertion>, lo: nat, hi: nat)
    requires lo < hi <= |lines|
    requires forall k | 0 <= k < |insertions| :: insertions[k].before <= lo || hi <= insertions[k].before
    requires hi < |lines| || !AnyAt(insertions, |lines|)
    ensures SplicedTo(lines, endsWithNewline, insertions, hi) ==
            SplicedThrough(lines, endsWithNewline, insertions, lo) + OldLines(lines, endsWithNewline)[lo..hi]
  {
    hide InsertedAt;
    var was := OldLines(lines, endsWithNewline);
    assert was[lo..hi] == was[lo..hi - 1] + [was[hi - 1]];
    assert OldLines(lines, EndsAfter(lines, endsWithNewline, insertions))[hi - 1] == was[hi - 1];
    if lo < hi - 1 {
      Gap(lines, endsWithNewline, insertions, lo, hi - 1);
      NoneInserted(insertions, hi - 1);
    } else {
      assert was[lo..lo] == [];
    }
  }

  lemma {:induction false} FirstGap(lines: seq<string>, endsWithNewline: bool, insertions: seq<Insertion>, hi: nat)
    requires hi <= |lines|
    requires forall k | 0 <= k < |insertions| :: hi <= insertions[k].before
    requires hi < |lines| || !AnyAt(insertions, |lines|)
    ensures SplicedTo(lines, endsWithNewline, insertions, hi) == OldLines(lines, endsWithNewline)[..hi]
  {
    if hi > 0 {
      NoneInserted(insertions, 0);
      Gap(lines, endsWithNewline, insertions, 0, hi);
    }
  }

  // ---- One insertion after another ----------------------------------------

  /** With nothing to insert the new file is the old one. */
  lemma NothingSpliced(lines: seq<string>, endsWithNewline: bool)
    ensures Spliced(lines, endsWithNewline, []) == OldLines(lines, endsWithNewline)
  {
    FirstGap(lines, endsWithNewline, [], |lines|);
    assert InsertedAt([], |lines|) == [];
  }

  ghost function Put<T>(s: seq<T>, at: nat, more: seq<T>): seq<T>
    requires at <= |s|
  {
    s[..at] + more + s[at..]
  }

  lemma PutGrows<T>(s: seq<T>, at: nat, more: seq<T>, tail: seq<T>)
    requires at <= |s|
    ensures Put(s, at, more) + tail == Put(s + tail, at, more)
  {
  }

  lemma OneInserted(insertions: seq<Insertion>, x: Insertion, index: nat)
    ensures InsertedAt(insertions + [x], index) ==
            InsertedAt(insertions, index) + if x.before == index then Complete(x.lines) else []
  {
    InsertedAppend(insertions, [x], index);
    assert [x][1..] == [];
    assert InsertedAt([x], index) == PutAt(x, index) + [];
  }

  lemma EndsAfterMore(lines: seq<string>, endsWithNewline: bool, insertions: seq<Insertion>, x: Insertion)
    ensures EndsAfter(lines, endsWithNewline, insertions + [x]) ==
            EndsAfter(lines, endsWithNewline || x.before == |lines|, insertions)
  {
    var all := insertions + [x];
    assert all[|insertions|] == x;
    assert forall k | 0 <= k < |insertions| :: all[k] == insertions[k];
  }

  lemma {:induction false} PutThrough(lines: seq<string>, endsWithNewline: bool, insertions: seq<Insertion>,
                                      x: Insertion, index: nat)
    requires index <= |lines|
    ensures var was := SplicedThrough(lines, endsWithNewline || x.before == |lines|, insertions, index);
            var at := x.before + LinesBelow(insertions, x.before + 1);
            && (index >= x.before ==> at <= |was|)
            && SplicedThrough(lines, endsWithNewline, insertions + [x], index) ==
               if index < x.before then was else Put(was, at, Complete(x.lines))
  {
    hide InsertedAt, EndsAfter, OldLines, LinesBelow, Put;
    var all, ended := insertions + [x], endsWithNewline || x.before == |lines|;
    var at := x.before + LinesBelow(insertions, x.before + 1);
    var more := Complete(x.lines);
    var was, own := SplicedTo(lines, ended, insertions, index), InsertedAt(insertions, index);
    OneInserted(insertions, x, index);
    EndsAfterMore(lines, endsWithNewline, insertions, x);
    SplicedLength(lines, ended, insertions, index);
    BelowNext(insertions, index);
    if index > 0 {
      PutThrough(lines, endsWithNewline, insertions, x, index - 1);
    }
    if index < x.before {
      assert own + [] == own;
    } else if index == x.before {
      assert |was + own| == at;
      PutAtEnd(was + own, more);
      Associates(was, own, more);
    } else {
      var before := SplicedThrough(lines, ended, insertions, index - 1);
      var line := [OldLines(lines, EndsAfter(lines, ended, insertions))[index - 1]];
      PutGrows(before, at, more, line);
      PutGrows(before + line, at, more, own);
      assert own + [] == own;
    }
  }

  lemma PutAtEnd<T>(s: seq<T>, more: seq<T>)
    ensures Put(s, |s|, more) == s + more
  {
  }

  /**
  One insertion more puts its lines, each ended, into the file the others make: behind the old
  lines before its index and whatever they put there, and a line without a newline gains
  one when it stands before them.
  */
  lemma SplicedOneByOne(lines: seq<string>, endsWithNewline: bool, insertions: seq<Insertion>, x: Insertion)
    requires x.before <= |lines|
    ensures var was := Spliced(lines, endsWithNewline || x.before == |lines|, insertions);
            var at := x.before + LinesBelow(insertions, x.before + 1);
            && at <= |was|
            && Spliced(lines, endsWithNewline, insertions + [x]) == was[..at] + Complete(x.lines) + was[at..]
  {
    PutThrough(lines, endsWithNewline, insertions, x, |lines|);
  }
}
