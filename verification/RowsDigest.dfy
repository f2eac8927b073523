/**
The digest that names a run's rows, computed twice: by the run as it writes them
(internal/run/rows.go), and by the report as it reads the file in whatever pieces it
comes (cmd/costroid/report.go). SHA-256 and the reading of one line's row id are
functions of their input.
*/
module RowsDigest {
  import opened Wrappers
  import opened Strings
  import opened Sorting

  /** Each id followed by a line feed. */
  function Listed(ids: seq<string>): string {
    if ids == [] then "" else ids[0] + "\n" + Listed(ids[1..])
  }

  // ---- The writer ---------------------------------------------------------

  /** What a run states of the rows it wrote; no rows, or a row that names no id, leave it empty. */
  method WrittenDigest(ids: seq<string>, sha: string -> string) returns (digest: string)
    ensures digest == Digest(ids, sha)
  {
    if |ids| == 0 {
      return "";
    }
    for i := 0 to |ids|
      invariant forall j | 0 <= j < i :: IsSha256(ids[j])
    {
      if !IsSha256(ids[i]) {
        return "";
      }
    }
    return sha(Listed(Sorted(ids)));
  }

  /** The digest of a run's rows. */
  function Digest(ids: seq<string>, sha: string -> string): string {
    if ids == [] || exists i | 0 <= i < |ids| :: !IsSha256(ids[i]) then "" else sha(Listed(Sorted(ids)))
  }

  /** The digest names the rows, whatever order they come in. */
  lemma DigestForgetsOrder(a: seq<string>, b: seq<string>, sha: string -> string)
    requires multiset(a) == multiset(b)
    ensures Digest(a, sha) == Digest(b, sha)
  {
    SortForgetsOrder(a, b);
    assert |multiset(a)| == |multiset(b)|;
    forall i | 0 <= i < |a|
      ensures exists j | 0 <= j < |b| :: b[j] == a[i]
    {
      assert a[i] in multiset(b);
    }
    forall i | 0 <= i < |b|
      ensures exists j | 0 <= j < |a| :: a[j] == b[i]
    {
      assert b[i] in multiset(a);
    }
  }

  lemma LinesOfIds(first: string, rest: string, i: nat)
    requires |first| == 64 && i >= 1 && 65 * i + 65 <= |first + "\n" + rest|
    ensures (first + "\n" + rest)[65 * i..65 * i + 64] == rest[65 * (i - 1)..65 * (i - 1) + 64]
    ensures (first + "\n" + rest)[65 * i + 64] == rest[65 * (i - 1) + 64]
  {
    assert first + "\n" + rest == (first + "\n") + rest;
  }

  /** What is listed is every id, in order, each on a line of its own. */
  lemma {:induction false} ListedHoldsIds(ids: seq<string>)
    requires forall i | 0 <= i < |ids| :: |ids[i]| == 64
    ensures |Listed(ids)| == 65 * |ids|
    ensures forall i | 0 <= i < |ids| ::
        Listed(ids)[65 * i..65 * i + 64] == ids[i] && Listed(ids)[65 * i + 64] == '\n'
  {
    if ids != [] {
      var rest := ids[1..];
      ListedHoldsIds(rest);
      forall i | 0 <= i < |ids|
        ensures Listed(ids)[65 * i..65 * i + 64] == ids[i] && Listed(ids)[65 * i + 64] == '\n'
      {
        if i > 0 {
          LinesOfIds(ids[0], Listed(rest), i);
          assert ids[i] == rest[i - 1];
        }
      }
    }
  }

  lemma ListedIsInjective(a: seq<string>, b: seq<string>)
    requires forall i | 0 <= i < |a| :: |a[i]| == 64
    requires forall i | 0 <= i < |b| :: |b[i]| == 64
    requires Listed(a) == Listed(b)
    ensures a == b
  {
    hide Listed;
    ListedHoldsIds(a);
    ListedHoldsIds(b);
  }

  predicate AllDigests(ids: seq<string>) {
    forall i | 0 <= i < |ids| :: IsSha256(ids[i])
  }

  lemma SortedMembers(ids: seq<string>)
    requires AllDigests(ids)
    ensures AllDigests(Sorted(ids)) && |Sorted(ids)| == |ids| && multiset(Sorted(ids)) == multiset(ids)
  {
    hide IsSha256;
    var sorted := Sorted(ids);
    SortBySorts(Itself, ids);
    assert |multiset(sorted)| == |sorted| && |multiset(ids)| == |ids|;
    forall i | 0 <= i < |sorted|
      ensures IsSha256(sorted[i])
    {
      assert sorted[i] in multiset(sorted);
      assert sorted[i] in multiset(ids);
    }
  }

  /** The rows are named: there is one, and each has a well-formed id. */
  predicate Named(ids: seq<string>) {
    ids != [] && AllDigests(ids)
  }

  /**
  The text hashed holds every id and nothing else: from the least id in byte order to the greatest,
  64 characters each, and a line feed behind each.
  */
  lemma DigestHashesIds(ids: seq<string>, sha: string -> string)
    requires Named(ids)
    ensures exists text: string, sorted: seq<string> ::
        && Digest(ids, sha) == sha(text) && |text| == 65 * |ids|
        && multiset(sorted) == multiset(ids) && SortedBy(Itself, sorted) && |sorted| == |ids|
        && forall i | 0 <= i < |ids| :: text[65 * i..65 * i + 64] == sorted[i] && text[65 * i + 64] == '\n'
  {
    hide Listed, SortBy, SortedBy, IsSha256;
    var sorted := Sorted(ids);
    var text := Listed(sorted);
    SortBySorts(Itself, ids);
    SortedMembers(ids);
    SixtyFour(sorted);
    ListedHoldsIds(sorted);
  }

  lemma SixtyFour(ids: seq<string>)
    requires AllDigests(ids)
    ensures forall i | 0 <= i < |ids| :: |ids[i]| == 64
  {
  }

  /**
  Under a hash that keeps texts apart, two lists of ids have one digest exactly when they
  hold the same ids, each as often, or neither names its rows.
  */
  lemma DigestNamesRows(a: seq<string>, b: seq<string>, sha: string -> string)
    requires forall s: string, t: string :: sha(s) == sha(t) ==> s == t
    requires forall s: string :: sha(s) != ""
    ensures Digest(a, sha) == Digest(b, sha) <==> multiset(a) == multiset(b) || (!Named(a) && !Named(b))
  {
    hide Listed, SortBy, IsSha256;
    if multiset(a) == multiset(b) {
      DigestForgetsOrder(a, b, sha);
    } else if Named(a) && Named(b) && Digest(a, sha) == Digest(b, sha) {
      SortedMembers(a);
      SortedMembers(b);
      SixtyFour(Sorted(a));
      SixtyFour(Sorted(b));
      ListedIsInjective(Sorted(a), Sorted(b));
    }
  }

  // ---- The reader ---------------------------------------------------------

  /** What the lines of a file say: the ids of its rows in order, and whether a row names none. */
  datatype Names = Names(ids: seq<string>, unnamed: bool)

  function Append(a: Names, b: Names): Names {
    Names(a.ids + b.ids, a.unnamed || b.unnamed)
  }

  /** One line: an empty line is no row. */
  function NamesOfLine(line: string, idOf: string -> Option<string>): Names {
    var text := DropReturn(line);
    if text == "" then Names([], false) else
      match idOf(text)
      case None => Names([], true)
      case Some(id) => if IsSha256(id) then Names([id], false) else Names([], true)
  }

  function NamesOf(lines: seq<string>, idOf: string -> Option<string>): Names {
    if lines == [] then Names([], false) else
      Append(NamesOf(lines[..|lines| - 1], idOf), NamesOfLine(lines[|lines| - 1], idOf))
  }

  /** The lines a text has ended, and what stands after the last newline. */
  function Ended(text: string): (lines: seq<string>)
  {
    var lines := SplitAtNewlines(text);
    lines[..|lines| - 1]
  }

  function Unended(text: string): string {
    var lines := SplitAtNewlines(text);
    lines[|lines| - 1]
  }

  lemma Headed<T>(x: T, lines: seq<T>, more: seq<T>)
    requires lines != []
    ensures ([x] + lines)[|lines|] == lines[|lines| - 1]
    ensures ([x] + lines)[..|lines|] + more == [x] + (lines[..|lines| - 1] + more)
  {
  }

  lemma SplitUnfolds(before: string, after: string)
    requires '\n' !in before
    ensures SplitAtNewlines(before + ['\n'] + after) == [before] + SplitAtNewlines(after)
  {
    CutUnique(before, '\n', after);
  }

  lemma {:induction false} SplitExtends(text: string, more: string)
    ensures SplitAtNewlines(text + more) == Ended(text) + SplitAtNewlines(Unended(text) + more)
    decreases |text|
  {
    hide CutAt;
    var cut := CutAt(text, '\n');
    if cut.found {
      SplitExtends(cut.after, more);
      SplitUnfolds(cut.before, cut.after);
      SplitUnfolds(cut.before, cut.after + more);
      assert text + more == cut.before + ['\n'] + (cut.after + more);
      Headed(cut.before, SplitAtNewlines(cut.after), SplitAtNewlines(Unended(cut.after) + more));
    } else {
      assert Ended(text) == [];
    }
  }

  class Reader {
    const idOf: string -> Option<string>
    var file: string
    var pending: string
    var ids: seq<string>
    var unnamed: bool

    constructor (idOf: string -> Option<string>)
      ensures Valid() && file == "" && this.idOf == idOf
    {
      this.idOf := idOf;
      file, pending, ids, unnamed := "", "", [], false;
      new;
      CutAbsent("", '\n');
    }

    /** The state after the text read so far, whatever pieces it came in. */
    ghost predicate Valid()
      reads this
    {
      Names(ids, unnamed) == NamesOf(Ended(file), idOf) && pending == Unended(file)
    }

    /** Keeps one line's row id. */
    method Row(line: string)
      modifies this`ids, this`unnamed
      ensures Names(ids, unnamed) == Append(Names(old(ids), old(unnamed)), NamesOfLine(line, idOf))
    {
      var text := DropReturn(line);
      if text == "" {
        return;
      }
      var id := idOf(text);
      if id.None? || !IsSha256(id.value) {
        unnamed := true;
        return;
      }
      ids := ids + [id.value];
    }

    /** Takes the next piece of the file. */
    method Write(p: string)
      requires Valid()
      modifies this
      ensures Valid() && file == old(file) + p
    {
      hide CutAt, NamesOfLine, NamesOf, Ended, Unended;
      file := file + p;
      ghost var taken := old(file);
      var rest := p;
      while true
        invariant file == old(file) + p && taken + rest == file
        invariant Names(ids, unnamed) == NamesOf(Ended(taken), idOf) && pending == Unended(taken)
        decreases |rest|
      {
        var cut := CutAt(rest, '\n');
        if !cut.found {
          Continues(taken, rest);
          pending := pending + rest;
          return;
        }
        Ends(taken, cut.before, idOf);
        Row(pending + cut.before);
        pending := "";
        taken := taken + (cut.before + "\n");
        assert taken + cut.after == file;
        rest := cut.after;
      }
    }

    /** Both digests of everything written so far, taken as a whole file. */
    method Sums(sha: string -> string) returns (rows: string, whole: string)
      requires Valid()
      modifies this`pending, this`ids, this`unnamed
      ensures rows == RowsSum(old(file), idOf, sha) && whole == sha(old(file))
    {
      LastLine(file, idOf);
      Row(pending);
      pending := "";
      whole := sha(file);
      if unnamed {
        return "", whole;
      }
      return sha(Listed(Sorted(ids))), whole;
    }
  }

  /** Text without a newline continues the last line. */
  lemma Continues(taken: string, more: string)
    requires '\n' !in more
    ensures Ended(taken + more) == Ended(taken) && Unended(taken + more) == Unended(taken) + more
  {
    hide CutAt;
    SplitExtends(taken, more);
    var last := Unended(taken) + more;
    assert '\n' !in last;
    CutAbsent(last, '\n');
    assert SplitAtNewlines(last) == [last];
  }

  /** A newline ends the line. */
  lemma EndedGrows(taken: string, more: string)
    requires '\n' !in more
    ensures Ended(taken + (more + "\n")) == Ended(taken) + [Unended(taken) + more]
    ensures Unended(taken + (more + "\n")) == ""
  {
    hide CutAt;
    SplitExtends(taken, more + "\n");
    var last := Unended(taken) + more;
    assert '\n' !in last;
    assert Unended(taken) + (more + "\n") == last + ['\n'] + "";
    CutUnique(last, '\n', "");
    CutAbsent("", '\n');
    assert SplitAtNewlines(last + ['\n'] + "") == [last, ""];
  }

  lemma Ends(taken: string, more: string, idOf: string -> Option<string>)
    requires '\n' !in more
    ensures Unended(taken + (more + "\n")) == ""
    ensures NamesOf(Ended(taken + (more + "\n")), idOf) ==
            Append(NamesOf(Ended(taken), idOf), NamesOfLine(Unended(taken) + more, idOf))
  {
    hide CutAt, NamesOfLine, Ended, Unended;
    EndedGrows(taken, more);
    var lines := Ended(taken + (more + "\n"));
    assert lines[..|lines| - 1] == Ended(taken);
  }

  lemma EndsCount(taken: string, more: string)
    requires '\n' !in more
    ensures RowCount(Ended(taken + (more + "\n"))) ==
            RowCount(Ended(taken)) + if DropReturn(Unended(taken) + more) == "" then 0 else 1
  {
    hide CutAt, DropReturn;
    EndedGrows(taken, more);
    var lines := Ended(taken + (more + "\n"));
    assert lines[..|lines| - 1] == Ended(taken);
  }

  /** The names in a whole file, split at once. */
  function FileNames(file: string, idOf: string -> Option<string>): Names {
    NamesOf(SplitAtNewlines(file), idOf)
  }

  lemma LastLine(file: string, idOf: string -> Option<string>)
    ensures FileNames(file, idOf) == Append(NamesOf(Ended(file), idOf), NamesOfLine(Unended(file), idOf))
  {
  }

  /** What Sums gives for a file, however it was cut into writes. */
  function RowsSum(file: string, idOf: string -> Option<string>, sha: string -> string): string {
    var names := FileNames(file, idOf);
    if names.unnamed then "" else sha(Listed(Sorted(names.ids)))
  }

  /** How many rows a file holds: its lines that are not empty. */
  function RowCount(lines: seq<string>): nat {
    if lines == [] then 0 else RowCount(lines[..|lines| - 1]) + if DropReturn(lines[|lines| - 1]) == "" then 0 else 1
  }

  /** readReportRows states no digest for a file that holds no row. */
  function ReportedDigest(file: string, idOf: string -> Option<string>, sha: string -> string): string {
    if RowCount(SplitAtNewlines(file)) == 0 then "" else RowsSum(file, idOf, sha)
  }

  // ---- Files of rows ------------------------------------------------------

  /** A line of a rows file: a row or a blank line, ended by LF or CRLF. */
  datatype Piece = Piece(row: string, crlf: bool)

  function Written(piece: Piece): string {
    if piece.crlf then piece.row + "\r\n" else piece.row + "\n"
  }

  function FileOf(pieces: seq<Piece>): string {
    if pieces == [] then "" else FileOf(pieces[..|pieces| - 1]) + Written(pieces[|pieces| - 1])
  }

  /** The rows among the lines. */
  function RowsOf(pieces: seq<Piece>): seq<string> {
    if pieces == [] then [] else
      RowsOf(pieces[..|pieces| - 1]) + if pieces[|pieces| - 1].row == "" then [] else [pieces[|pieces| - 1].row]
  }

  /** A row's text holds no line ending of its own. */
  ghost predicate IsRowText(text: string) {
    '\n' !in text && (text != "" ==> text[|text| - 1] != '\r')
  }

  function NamesOfRows(rows: seq<string>, idOf: string -> Option<string>): Names {
    if rows == [] then Names([], false) else
      Append(NamesOfRows(rows[..|rows| - 1], idOf), NamesOfLine(rows[|rows| - 1], idOf))
  }

  lemma LineOfPiece(piece: Piece)
    requires IsRowText(piece.row)
    ensures var line := if piece.crlf then piece.row + "\r" else piece.row;
            DropReturn(line) == piece.row && DropReturn(piece.row) == piece.row
            && '\n' !in line && Written(piece) == line + "\n"
  {
    var line := piece.row + "\r";
    assert line[..|line| - 1] == piece.row;
  }

  lemma RowsAppend(rows: seq<string>, row: string, idOf: string -> Option<string>)
    ensures NamesOfRows(rows + [row], idOf) == Append(NamesOfRows(rows, idOf), NamesOfLine(row, idOf))
  {
    assert (rows + [row])[..|rows|] == rows;
  }

  lemma LineIsRow(line: string, row: string, idOf: string -> Option<string>)
    requires DropReturn(line) == row == DropReturn(row)
    ensures NamesOfLine(line, idOf) == NamesOfLine(row, idOf)
    ensures row == "" ==> forall names: Names :: Append(names, NamesOfLine(line, idOf)) == names
  {
    assert forall names: Names :: names.ids + [] == names.ids;
  }

  /** A file of rows, with LF or CRLF endings and blank lines anywhere, holds its rows in order. */
  lemma {:induction false} FileHoldsRows(pieces: seq<Piece>, idOf: string -> Option<string>)
    requires forall i | 0 <= i < |pieces| :: IsRowText(pieces[i].row)
    ensures Unended(FileOf(pieces)) == ""
    ensures NamesOf(Ended(FileOf(pieces)), idOf) == NamesOfRows(RowsOf(pieces), idOf)
    ensures RowCount(Ended(FileOf(pieces))) == |RowsOf(pieces)|
  {
    hide CutAt, DropReturn, Ended, Unended, NamesOf, NamesOfRows, RowCount, NamesOfLine, Append, Written;
    if pieces == [] {
      EmptyFile(idOf);
    } else {
      var init, last := pieces[..|pieces| - 1], pieces[|pieces| - 1];
      var line := if last.crlf then last.row + "\r" else last.row;
      FileHoldsRows(init, idOf);
      LineOfPiece(last);
      Ends(FileOf(init), line, idOf);
      EndsCount(FileOf(init), line);
      assert "" + line == line;
      LineIsRow(line, last.row, idOf);
      RowsAppend(RowsOf(init), last.row, idOf);
      assert RowsOf(init) + [] == RowsOf(init);
    }
  }

  lemma EmptyFile(idOf: string -> Option<string>)
    ensures Unended("") == "" && NamesOf(Ended(""), idOf) == NamesOfRows([], idOf) && RowCount(Ended("")) == 0
  {
    CutAbsent("", '\n');
  }

  /** Reading named rows gives their ids in order, and is unnamed exactly when one has no id. */
  lemma {:induction false} RowsHaveIds(rows: seq<string>, ids: seq<string>, idOf: string -> Option<string>)
    requires |rows| == |ids| && forall i | 0 <= i < |rows| :: rows[i] != "" && DropReturn(rows[i]) == rows[i]
    requires forall i | 0 <= i < |rows| :: idOf(rows[i]) == Some(ids[i])
    ensures NamesOfRows(rows, idOf).unnamed <==> exists i | 0 <= i < |ids| :: !IsSha256(ids[i])
    ensures !NamesOfRows(rows, idOf).unnamed ==> NamesOfRows(rows, idOf).ids == ids
  {
    if rows != [] {
      var n := |rows| - 1;
      RowsHaveIds(rows[..n], ids[..n], idOf);
      assert ids == ids[..n] + [ids[n]];
      assert NamesOfLine(rows[n], idOf).unnamed <==> !IsSha256(ids[n]);
      if exists i | 0 <= i < |ids| :: !IsSha256(ids[i]) {
        var i :| 0 <= i < |ids| && !IsSha256(ids[i]);
        assert i < n ==> ids[..n][i] == ids[i];
      }
      assert forall i | 0 <= i < n :: ids[..n][i] == ids[i];
    }
  }

  /**
  The report's digest of a file of the run's rows is the digest the run stated, for
  any order of the rows, any mix of LF and CRLF, and any blank lines.
  */
  lemma ReportAgreesWithRun(pieces: seq<Piece>, ids: seq<string>, written: seq<string>,
                            idOf: string -> Option<string>, sha: string -> string)
    requires forall i | 0 <= i < |pieces| :: IsRowText(pieces[i].row)
    requires |ids| == |RowsOf(pieces)| && forall i | 0 <= i < |ids| :: idOf(RowsOf(pieces)[i]) == Some(ids[i])
    requires multiset(written) == multiset(ids)
    ensures ReportedDigest(FileOf(pieces), idOf, sha) == Digest(written, sha)
  {
    hide CutAt, DropReturn, NamesOf, NamesOfRows, RowCount, NamesOfLine, IsSha256, Sorted;
    var file, rows := FileOf(pieces), RowsOf(pieces);
    FileHoldsRows(pieces, idOf);
    RowsAreTexts(pieces);
    RowsHaveIds(rows, ids, idOf);
    EndsEmpty(file, idOf);
    DigestForgetsOrder(written, ids, sha);
  }

  lemma EndsEmpty(file: string, idOf: string -> Option<string>)
    requires Unended(file) == ""
    ensures FileNames(file, idOf) == NamesOf(Ended(file), idOf)
    ensures RowCount(SplitAtNewlines(file)) == RowCount(Ended(file))
  {
    hide CutAt;
    var names := NamesOf(Ended(file), idOf);
    LastLine(file, idOf);
    assert DropReturn("") == "";
    assert names.ids + [] == names.ids;
  }

  lemma {:induction false} RowsAreTexts(pieces: seq<Piece>)
    requires forall i | 0 <= i < |pieces| :: IsRowText(pieces[i].row)
    ensures forall i | 0 <= i < |RowsOf(pieces)| ::
        RowsOf(pieces)[i] != "" && DropReturn(RowsOf(pieces)[i]) == RowsOf(pieces)[i]
  {
    if pieces != [] {
      RowsAreTexts(pieces[..|pieces| - 1]);
      LineOfPiece(pieces[|pieces| - 1]);
    }
  }

  /** A missing final newline changes no row: the file reads as if its last row had one. */
  lemma FinalNewlineIsOptional(pieces: seq<Piece>, row: string, idOf: string -> Option<string>, sha: string -> string)
    requires forall i | 0 <= i < |pieces| :: IsRowText(pieces[i].row)
    requires IsRowText(row)
    ensures ReportedDigest(FileOf(pieces) + row, idOf, sha) ==
            ReportedDigest(FileOf(pieces + [Piece(row, false)]), idOf, sha)
  {
    hide CutAt, DropReturn, NamesOf, RowCount, NamesOfLine, Sorted, Append, Ended, Unended, FileOf, IsRowText, RowsOf;
    var file := FileOf(pieces);
    FileHoldsRows(pieces, idOf);
    OneLineText(row);
    Continues(file, row);
    Ends(file, row, idOf);
    EndsCount(file, row);
    FileAppend(pieces, row);
    LastLine(file + row, idOf);
    EndsEmpty(file + (row + "\n"), idOf);
    LastCount(file + row);
    assert "" + row == row;
  }

  lemma FileAppend(pieces: seq<Piece>, row: string)
    ensures FileOf(pieces + [Piece(row, false)]) == FileOf(pieces) + (row + "\n")
  {
    assert (pieces + [Piece(row, false)])[..|pieces|] == pieces;
  }

  lemma OneLineText(text: string)
    requires IsRowText(text)
    ensures '\n' !in text
  {
  }

  lemma LastCount(file: string)
    ensures RowCount(SplitAtNewlines(file)) ==
            RowCount(Ended(file)) + if DropReturn(Unended(file)) == "" then 0 else 1
  {
  }
}
