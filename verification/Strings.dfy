/** The few string operations of Go the model needs. A Go string's bytes are characters here. */
module Strings {
  /** Where c first stands in s, or |s| when it does not. */
  function IndexOf(s: string, c: char): (i: nat)
    ensures i <= |s| && c !in s[..i]
    ensures i < |s| ==> s[i] == c
  {
    if s == "" || s[0] == c then 0 else
      var i := 1 + IndexOf(s[1..], c);
      assert s[..i] == [s[0]] + s[1..][..i - 1];
      i
  }

  datatype Cut = Cut(before: string, after: string, found: bool)

  /** strings.Cut with a one-character separator. */
  function CutAt(s: string, c: char): (r: Cut)
    ensures c !in r.before
    ensures s == if r.found then r.before + [c] + r.after else r.before
    ensures !r.found ==> r.after == ""
  {
    var i := IndexOf(s, c);
    if i < |s| then Cut(s[..i], s[i + 1..], true) else
      assert s[..i] == s;
      Cut(s, "", false)
  }

  /** A cut is determined by the text: the first separator ends the first part. */
  lemma CutUnique(before: string, c: char, after: string)
    requires c !in before
    ensures CutAt(before + [c] + after, c) == Cut(before, after, true)
  {
    var s := before + [c] + after;
    var i := IndexOf(s, c);
    assert s[|before|] == c;
    assert forall k | 0 <= k < |before| :: s[k] == before[k] && before[k] in before;
    assert forall k | 0 <= k < i :: s[k] in s[..i];
    assert s[..i] == before && s[i + 1..] == after;
  }

  lemma CutAbsent(s: string, c: char)
    requires c !in s
    ensures CutAt(s, c) == Cut(s, "", false)
  {
    var i := IndexOf(s, c);
    assert forall k | 0 <= k < |s| :: s[k] in s;
  }

  /** strings.Split at newlines. */
  function SplitAtNewlines(text: string): (lines: seq<string>)
    ensures lines != [] && forall i | 0 <= i < |lines| :: '\n' !in lines[i]
    decreases |text|
  {
    var cut := CutAt(text, '\n');
    if cut.found then [cut.before] + SplitAtNewlines(cut.after) else [text]
  }

  /** A line without the carriage return that ends it, as bufio.ScanLines gives it. */
  function DropReturn(line: string): string {
    if line != "" && line[|line| - 1] == '\r' then line[..|line| - 1] else line
  }

  /** One carriage return goes, and only from the end. */
  lemma OneReturnDrops(text: string)
    ensures DropReturn(text + "\r") == text
    ensures DropReturn(text) != text ==> text == DropReturn(text) + "\r"
  {
    assert (text + "\r")[..|text|] == text;
  }

  /** A SHA-256 digest as text: 64 lower-case hex digits. */
  predicate IsSha256(text: string) {
    |text| == 64 && forall i | 0 <= i < 64 :: '0' <= text[i] <= '9' || 'a' <= text[i] <= 'f'
  }
}
