/**
The unified diff format ("Diff -u Output Format" of the POSIX.1-2017 diff utility)
and a strict reader of it: every header's starts and counts must match its body,
hunks must come in order without overlap, and every line a hunk keeps or removes
must be the old file's, its newline included.
*/
module PatchFormat {
  import opened Wrappers
  import opened Digits
  import opened Strings

  /** A line of a file. Only a last line can lack its newline. */
  datatype Line = Line(text: string, newline: bool)

  datatype PatchLine = Context(line: Line) | Removed(line: Line) | Added(line: Line)

  datatype Hunk = Hunk(oldStart: nat, oldCount: nat, newStart: nat, newCount: nat, body: seq<PatchLine>)

  /** A line of a patch that says the one before it has no newline. */
  predicate IsMarker(raw: string) {
    |raw| >= 2 && raw[0] == '\\' && raw[1] == ' '
  }

  function Marker(): (s: string)
    ensures IsMarker(s) && '\n' !in s
  {
    "\\ No newline at end of file"
  }

  // ---- Files --------------------------------------------------------------

  /** The lines of a file: an empty file has none. */
  function FileLines(text: string): seq<Line>
    decreases |text|
  {
    var cut := CutAt(text, '\n');
    if text == "" then []
    else if cut.found then [Line(cut.before, true)] + FileLines(cut.after)
    else [Line(text, false)]
  }

  function FileText(lines: seq<Line>): string {
    if lines == [] then "" else
      lines[0].text + (if lines[0].newline then "\n" else "") + FileText(lines[1..])
  }

  /** Printed lines, each ended by a newline. */
  function RawText(raws: seq<string>): string {
    if raws == [] then "" else raws[0] + ['\n'] + RawText(raws[1..])
  }

  function SplitRaw(text: string): Option<seq<string>>
    decreases |text|
  {
    if text == "" then Some([]) else
      var cut := CutAt(text, '\n');
      if !cut.found then None else
        var rest := SplitRaw(cut.after);
        if rest.None? then None else Some([cut.before] + rest.value)
  }

  // ---- Printing -----------------------------------------------------------

  function Sign(p: PatchLine): char {
    match p
    case Context(_) => ' '
    case Removed(_) => '-'
    case Added(_) => '+'
  }

  function RawOf(p: PatchLine): seq<string> {
    if p.line.newline then [[Sign(p)] + p.line.text] else [[Sign(p)] + p.line.text, Marker()]
  }

  function RawBody(body: seq<PatchLine>): seq<string> {
    if body == [] then [] else RawOf(body[0]) + RawBody(body[1..])
  }

  /** A header as it is printed; only one of no negative number can be read. */
  function HeaderLine(oldStart: int, oldCount: int, newStart: int, newCount: int): string {
    "@@ -" + (IntText(oldStart) + [','] + (IntText(oldCount) + [' '] +
      (['+'] + (IntText(newStart) + [','] + (IntText(newCount) + [' '] + "@@")))))
  }

  function RawHunk(h: Hunk): seq<string> {
    [HeaderLine(h.oldStart, h.oldCount, h.newStart, h.newCount)] + RawBody(h.body)
  }

  function RawHunks(hunks: seq<Hunk>): seq<string> {
    if hunks == [] then [] else RawHunk(hunks[0]) + RawHunks(hunks[1..])
  }

  function FileHeader(name: string): string {
    "--- a/" + name + "\n+++ b/" + name + "\n"
  }

  // ---- Reading ------------------------------------------------------------

  function ReadNat(s: string): Option<nat> {
    if s != "" && AllDigits(s) then Some(NatValue(s)) else None
  }

  /** A header's four numbers, as a hunk without a body. */
  function ReadHeader(s: string): Option<Hunk> {
    if |s| < 4 || s[..4] != "@@ -" then None else
      var a := CutAt(s[4..], ',');
      var b := CutAt(a.after, ' ');
      if b.after == "" || b.after[0] != '+' then None else
        var c := CutAt(b.after[1..], ',');
        var d := CutAt(c.after, ' ');
        var oldStart, oldCount := ReadNat(a.before), ReadNat(b.before);
        var newStart, newCount := ReadNat(c.before), ReadNat(d.before);
        if d.after != "@@" || oldStart.None? || oldCount.None? || newStart.None? || newCount.None? then None else
          Some(Hunk(oldStart.value, oldCount.value, newStart.value, newCount.value, []))
  }

  function ReadLine(raw: string, newline: bool): Option<PatchLine> {
    if raw == "" then None
    else if raw[0] == ' ' then Some(Context(Line(raw[1..], newline)))
    else if raw[0] == '-' then Some(Removed(Line(raw[1..], newline)))
    else if raw[0] == '+' then Some(Added(Line(raw[1..], newline)))
    else None
  }

  function ReadBody(raws: seq<string>): Option<seq<PatchLine>>
    decreases |raws|
  {
    if raws == [] then Some([]) else
      var marked := |raws| > 1 && IsMarker(raws[1]);
      var first := ReadLine(raws[0], !marked);
      var rest := ReadBody(if marked then raws[2..] else raws[1..]);
      if first.None? || rest.None? then None else Some([first.value] + rest.value)
  }

  /** How many lines stand before the next header. */
  function BodyLength(raws: seq<string>): (n: nat)
    ensures n <= |raws|
  {
    if raws == [] || IsHeader(raws[0]) then 0 else 1 + BodyLength(raws[1..])
  }

  function ReadHunks(raws: seq<string>): Option<seq<Hunk>>
    decreases |raws|
  {
    if raws == [] then Some([]) else
      var header := ReadHeader(raws[0]);
      var n := BodyLength(raws[1..]);
      var body := ReadBody(raws[1..n + 1]);
      var rest := ReadHunks(raws[n + 1..]);
      if header.None? || body.None? || rest.None? then None else
        Some([header.value.(body := body.value)] + rest.value)
  }

  // ---- Applying -----------------------------------------------------------

  function OldLine(p: PatchLine): seq<Line> {
    if p.Added? then [] else [p.line]
  }

  function NewLine(p: PatchLine): seq<Line> {
    if p.Removed? then [] else [p.line]
  }

  /** The lines a body takes from the old file. */
  function OldSide(body: seq<PatchLine>): seq<Line> {
    if body == [] then [] else OldLine(body[0]) + OldSide(body[1..])
  }

  /** The lines a body leaves in the new file. */
  function NewSide(body: seq<PatchLine>): seq<Line> {
    if body == [] then [] else NewLine(body[0]) + NewSide(body[1..])
  }

  /** How far the old file is read, and the new file so far. */
  datatype State = State(position: nat, output: seq<Line>)

  /** A side of no lines names the line before it, any other side its first line. */
  function Begin(start: nat, count: nat): int {
    if count == 0 then start else start - 1
  }

  function ApplyHunk(was: seq<Line>, st: State, h: Hunk): Option<State> {
    var begin := Begin(h.oldStart, h.oldCount);
    if !(st.position <= begin && begin + h.oldCount <= |was|) then None else
      var output := st.output + was[st.position..begin];
      if OldSide(h.body) != was[begin..begin + h.oldCount] || |NewSide(h.body)| != h.newCount
         || |output| != Begin(h.newStart, h.newCount)
      then None
      else Some(State(begin + h.oldCount, output + NewSide(h.body)))
  }

  function ApplyHunks(was: seq<Line>, hunks: seq<Hunk>): Option<State> {
    if hunks == [] then Some(State(0, [])) else
      var st := ApplyHunks(was, hunks[..|hunks| - 1]);
      if st.None? then None else ApplyHunk(was, st.value, hunks[|hunks| - 1])
  }

  /** The rest of a text that starts with a line. */
  function AfterLine(text: string, line: string): Option<string> {
    if line <= text && |line| < |text| && text[|line|] == '\n' then Some(text[|line| + 1..]) else None
  }

  /** A patch without the two lines that name the file it is for, on its old side and on its new. */
  function Unheaded(patch: string, name: string): Option<string> {
    var rest := AfterLine(patch, "--- a/" + name);
    if rest.None? then None else AfterLine(rest.value, "+++ b/" + name)
  }

  /** The file a patch for name makes of source, None when the patch does not apply. */
  function ApplyPatch(patch: string, name: string, source: string): Option<string> {
    var text := Unheaded(patch, name);
    if text.None? then None else
      var raws := SplitRaw(text.value);
      if raws.None? then None else
        var hunks := ReadHunks(raws.value);
        if hunks.None? then None else
          var was := FileLines(source);
          var st := ApplyHunks(was, hunks.value);
          if st.None? || st.value.position > |was| then None else
            Some(FileText(st.value.output + was[st.value.position..]))
  }

  // ---- Reading undoes printing --------------------------------------------

  lemma LineGone(line: string, rest: string)
    ensures AfterLine(line + "\n" + rest, line) == Some(rest)
  {
    assert (line + "\n" + rest)[..|line|] == line;
  }

  /** What a patch is printed under names the file. */
  lemma HeaderGone(name: string, body: string)
    ensures Unheaded(FileHeader(name) + body, name) == Some(body)
  {
    hide AfterLine;
    var from, to := "--- a/" + name, "+++ b/" + name;
    LineGone(from, to + "\n" + body);
    LineGone(to, body);
    assert FileHeader(name) + body == from + "\n" + (to + "\n" + body);
  }

  ghost predicate OneLine(raws: seq<string>) {
    forall i | 0 <= i < |raws| :: '\n' !in raws[i]
  }

  ghost predicate OneLineBody(body: seq<PatchLine>) {
    forall i | 0 <= i < |body| :: '\n' !in body[i].line.text
  }

  lemma {:induction false} SplitRawReads(raws: seq<string>)
    requires OneLine(raws)
    ensures SplitRaw(RawText(raws)) == Some(raws)
  {
    if raws != [] {
      SplitRawReads(raws[1..]);
      CutUnique(raws[0], '\n', RawText(raws[1..]));
      assert RawText(raws) == raws[0] + ['\n'] + RawText(raws[1..]);
      assert RawText(raws)[|raws[0]|] == '\n';
      assert raws == [raws[0]] + raws[1..];
    }
  }

  lemma Associates<T>(a: seq<T>, b: seq<T>, c: seq<T>)
    ensures (a + b) + c == a + (b + c)
  {
  }

  lemma {:induction false} RawTextConcat(a: seq<string>, b: seq<string>)
    ensures RawText(a + b) == RawText(a) + RawText(b)
  {
    if a == [] {
      assert a + b == b;
    } else {
      RawTextConcat(a[1..], b);
      assert (a + b)[1..] == a[1..] + b;
      Associates((a[0] + ['\n']), RawText(a[1..]), RawText(b));
    }
  }

  lemma {:induction false} RawBodyConcat(a: seq<PatchLine>, b: seq<PatchLine>)
    ensures RawBody(a + b) == RawBody(a) + RawBody(b)
  {
    hide RawOf;
    if a == [] {
      assert a + b == b;
    } else {
      RawBodyConcat(a[1..], b);
      assert (a + b)[1..] == a[1..] + b;
      Associates(RawOf(a[0]), RawBody(a[1..]), RawBody(b));
    }
  }

  lemma {:induction false} RawHunksAppend(hunks: seq<Hunk>, h: Hunk)
    ensures RawHunks(hunks + [h]) == RawHunks(hunks) + RawHunk(h)
  {
    hide RawHunk;
    if hunks == [] {
      assert [h][1..] == [];
      assert hunks + [h] == [h];
    } else {
      RawHunksAppend(hunks[1..], h);
      assert (hunks + [h])[1..] == hunks[1..] + [h];
    }
  }

  lemma ReadNatReads(n: int)
    ensures ReadNat(IntText(n)) == if n >= 0 then Some(n) else None
    ensures forall c | c in IntText(n) :: IsDigit(c) || c == '-'
  {
    if n >= 0 {
      TextHasValue(n);
    } else {
      assert IntText(n)[0] == '-';
    }
  }

  /** A header is read back exactly when no number in it is negative. */
  lemma HeaderReads(oldStart: int, oldCount: int, newStart: int, newCount: int)
    ensures ReadHeader(HeaderLine(oldStart, oldCount, newStart, newCount)) ==
            if oldStart >= 0 && oldCount >= 0 && newStart >= 0 && newCount >= 0
            then Some(Hunk(oldStart, oldCount, newStart, newCount, [])) else None
  {
    hide CutAt, IntText, NatValue, ReadNat;
    ReadNatReads(oldStart);
    ReadNatReads(oldCount);
    ReadNatReads(newStart);
    ReadNatReads(newCount);
    var d := IntText(newCount) + [' '] + "@@";
    var c := IntText(newStart) + [','] + d;
    var b := IntText(oldCount) + [' '] + (['+'] + c);
    var a := IntText(oldStart) + [','] + b;
    CutUnique(IntText(newCount), ' ', "@@");
    CutUnique(IntText(newStart), ',', d);
    CutUnique(IntText(oldCount), ' ', ['+'] + c);
    CutUnique(IntText(oldStart), ',', b);
    assert ("@@ -" + a)[4..] == a;
    assert (['+'] + c)[1..] == c;
  }

  lemma {:induction false} BodyReads(body: seq<PatchLine>)
    ensures ReadBody(RawBody(body)) == Some(body)
  {
    hide Marker;
    if body != [] {
      var p, raws := body[0], RawBody(body);
      BodyReads(body[1..]);
      assert raws[0][1..] == p.line.text;
      if p.line.newline {
        assert raws[1..] == RawBody(body[1..]);
        assert body[1..] != [] ==> raws[1] == RawOf(body[1])[0];
      } else {
        assert raws[1] == Marker() && raws[2..] == RawBody(body[1..]);
      }
      assert body == [p] + body[1..];
    }
  }

  predicate IsHeader(raw: string) {
    raw != "" && raw[0] == '@'
  }

  lemma {:induction false} BodyHasNoHeader(body: seq<PatchLine>)
    ensures forall i | 0 <= i < |RawBody(body)| :: !IsHeader(RawBody(body)[i])
  {
    hide Marker;
    if body != [] {
      BodyHasNoHeader(body[1..]);
    }
  }

  lemma {:induction false} BodyStopsAtHeader(raws: seq<string>, rest: seq<string>)
    requires forall i | 0 <= i < |raws| :: !IsHeader(raws[i])
    requires rest != [] ==> IsHeader(rest[0])
    ensures BodyLength(raws + rest) == |raws|
  {
    if raws == [] {
      assert raws + rest == rest;
    } else {
      BodyStopsAtHeader(raws[1..], rest);
      assert (raws + rest)[1..] == raws[1..] + rest;
    }
  }

  lemma HunksStartWithHeader(hunks: seq<Hunk>)
    ensures hunks != [] ==> RawHunks(hunks) != [] && IsHeader(RawHunks(hunks)[0])
    ensures hunks == [] ==> RawHunks(hunks) == []
  {
  }

  lemma {:induction false} HunksRead(hunks: seq<Hunk>)
    ensures ReadHunks(RawHunks(hunks)) == Some(hunks)
  {
    hide HeaderLine, ReadHeader, RawBody, ReadBody, BodyLength;
    if hunks != [] {
      var h, rest := hunks[0], RawHunks(hunks[1..]);
      var raws, body := RawHunks(hunks), RawBody(h.body);
      HunksRead(hunks[1..]);
      HeaderReads(h.oldStart, h.oldCount, h.newStart, h.newCount);
      BodyReads(h.body);
      HunksStartWithHeader(hunks[1..]);
      BodyHasNoHeader(h.body);
      BodyStopsAtHeader(body, rest);
      assert raws[1..] == body + rest;
      assert raws[1..|body| + 1] == body;
      assert raws[|body| + 1..] == rest;
      assert hunks == [h] + hunks[1..];
    }
  }

  lemma {:induction false} BodyIsOneLine(body: seq<PatchLine>)
    requires OneLineBody(body)
    ensures OneLine(RawBody(body))
  {
    hide Marker;
    if body != [] {
      BodyIsOneLine(body[1..]);
    }
  }

  lemma HeaderIsOneLine(oldStart: int, oldCount: int, newStart: int, newCount: int)
    ensures '\n' !in HeaderLine(oldStart, oldCount, newStart, newCount)
    ensures IsHeader(HeaderLine(oldStart, oldCount, newStart, newCount))
  {
    hide IntText;
    ReadNatReads(oldStart);
    ReadNatReads(oldCount);
    ReadNatReads(newStart);
    ReadNatReads(newCount);
  }

  lemma {:induction false} HunksAreOneLine(hunks: seq<Hunk>)
    requires forall i | 0 <= i < |hunks| :: OneLineBody(hunks[i].body)
    ensures OneLine(RawHunks(hunks))
  {
    if hunks != [] {
      HeaderIsOneLine(hunks[0].oldStart, hunks[0].oldCount, hunks[0].newStart, hunks[0].newCount);
      BodyIsOneLine(hunks[0].body);
      HunksAreOneLine(hunks[1..]);
    }
  }

  /** A printed patch is read as the hunks it was printed from. */
  lemma PrintedPatchApplies(name: string, hunks: seq<Hunk>, source: string)
    requires forall i | 0 <= i < |hunks| :: OneLineBody(hunks[i].body)
    ensures ApplyPatch(FileHeader(name) + RawText(RawHunks(hunks)), name, source) ==
            var was, st := FileLines(source), ApplyHunks(FileLines(source), hunks);
            if st.None? || st.value.position > |was| then None
            else Some(FileText(st.value.output + was[st.value.position..]))
  {
    hide FileHeader, Unheaded, RawText, SplitRaw, ReadHunks, RawHunks;
    HeaderGone(name, RawText(RawHunks(hunks)));
    HunksAreOneLine(hunks);
    SplitRawReads(RawHunks(hunks));
    HunksRead(hunks);
  }

  lemma {:induction false} OldSideConcat(a: seq<PatchLine>, b: seq<PatchLine>)
    ensures OldSide(a + b) == OldSide(a) + OldSide(b)
  {
    hide OldLine;
    if a == [] {
      assert a + b == b;
    } else {
      OldSideConcat(a[1..], b);
      assert (a + b)[1..] == a[1..] + b;
      Associates(OldLine(a[0]), OldSide(a[1..]), OldSide(b));
    }
  }

  lemma {:induction false} NewSideConcat(a: seq<PatchLine>, b: seq<PatchLine>)
    ensures NewSide(a + b) == NewSide(a) + NewSide(b)
  {
    hide NewLine;
    if a == [] {
      assert a + b == b;
    } else {
      NewSideConcat(a[1..], b);
      assert (a + b)[1..] == a[1..] + b;
      Associates(NewLine(a[0]), NewSide(a[1..]), NewSide(b));
    }
  }
}
