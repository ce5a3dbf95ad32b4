/** The small text and list helpers of `utils/misc.py`: `nildent`, `list_sum`
    and `ms2samples`.  Line splitting and white-space stripping follow
    Python's `str.splitlines` and `str.lstrip` over their full character sets. */
module TextUtils {
  import opened PyCore

  // ---------------------------------------------------------------------------
  // Characters
  // ---------------------------------------------------------------------------

  /** The line boundaries of `str.splitlines`: \n, \r, \v, \f, the file,
      group and record separators, NEL, LINE SEPARATOR and PARAGRAPH SEPARATOR. */
  predicate IsLineBreak(c: char) {
    var n := c as int;
    n == 0x0a || n == 0x0b || n == 0x0c || n == 0x0d ||
    0x1c <= n <= 0x1e || n == 0x85 || n == 0x2028 || n == 0x2029
  }

  /** The characters `str.isspace` accepts, which `str.lstrip()` removes. */
  predicate IsSpace(c: char) {
    var n := c as int;
    0x09 <= n <= 0x0d || 0x1c <= n <= 0x20 || n == 0x85 || n == 0xa0 || n == 0x1680 ||
    0x2000 <= n <= 0x200a || n == 0x2028 || n == 0x2029 || n == 0x202f || n == 0x205f ||
    n == 0x3000
  }

  lemma LineBreakIsSpace(c: char)
    ensures IsLineBreak(c) ==> IsSpace(c)
  {
  }

  predicate NoBreak(s: string) {
    forall i :: 0 <= i < |s| ==> !IsLineBreak(s[i])
  }

  predicate AllNoBreak(lines: seq<string>) {
    forall j :: 0 <= j < |lines| ==> NoBreak(lines[j])
  }

  // ---------------------------------------------------------------------------
  // str.splitlines, str.lstrip, "\n".join
  // ---------------------------------------------------------------------------

  /** Position of the first line boundary of `s`, or `|s|` when there is none. */
  function FirstBreak(s: string): (k: nat)
    ensures k <= |s|
    ensures forall i :: 0 <= i < k ==> !IsLineBreak(s[i])
    ensures k < |s| ==> IsLineBreak(s[k])
  {
    if |s| == 0 || IsLineBreak(s[0]) then 0 else 1 + FirstBreak(s[1..])
  }

  /** `s.splitlines()`: the lines without their boundaries; "\r\n" is one
      boundary, and a boundary at the very end opens no further line. */
  function SplitLines(s: string): (lines: seq<string>)
    ensures AllNoBreak(lines)
    ensures |lines| > 0 <==> |s| > 0
    decreases |s|
  {
    if |s| == 0 then []
    else
      var k := FirstBreak(s);
      if k == |s| then [s]
      else
        var width := if s[k] == '\r' && k + 1 < |s| && s[k + 1] == '\n' then 2 else 1;
        [s[..k]] + SplitLines(s[k + width..])
  }

  /** Number of white-space characters at the start of `s`. */
  function LeadingSpace(s: string): (k: nat)
    ensures k <= |s|
    ensures forall i :: 0 <= i < k ==> IsSpace(s[i])
    ensures k < |s| ==> !IsSpace(s[k])
  {
    if |s| == 0 || !IsSpace(s[0]) then 0 else 1 + LeadingSpace(s[1..])
  }

  /** `s.lstrip()` */
  function LStrip(s: string): string {
    s[LeadingSpace(s)..]
  }

  function StripAll(lines: seq<string>): (r: seq<string>)
    ensures |r| == |lines|
    ensures forall j :: 0 <= j < |lines| ==> r[j] == LStrip(lines[j])
  {
    seq(|lines|, j requires 0 <= j < |lines| => LStrip(lines[j]))
  }

  /** `"\n".join(lines)` */
  function JoinLines(lines: seq<string>): string {
    if |lines| == 0 then ""
    else if |lines| == 1 then lines[0]
    else lines[0] + "\n" + JoinLines(lines[1..])
  }

  /** Every line followed by a newline. */
  function Terminated(lines: seq<string>): string {
    if |lines| == 0 then "" else lines[0] + "\n" + Terminated(lines[1..])
  }

  // ---------------------------------------------------------------------------
  // Splitting what was joined
  // ---------------------------------------------------------------------------

  lemma {:induction false} FirstBreakOf(line: string, rest: string)
    requires NoBreak(line)
    requires |rest| > 0 && IsLineBreak(rest[0])
    ensures FirstBreak(line + rest) == |line|
    decreases |line|
  {
    if |line| > 0 {
      assert (line + rest)[1..] == line[1..] + rest;
      FirstBreakOf(line[1..], rest);
    } else {
      assert (line + rest)[0] == rest[0];
    }
  }

  lemma {:induction false} FirstBreakNone(line: string)
    requires NoBreak(line)
    ensures FirstBreak(line) == |line|
    decreases |line|
  {
    if |line| > 0 {
      FirstBreakNone(line[1..]);
    }
  }

  /** A non-empty string without boundaries is a single line. */
  lemma SplitOneLine(line: string)
    requires NoBreak(line) && |line| > 0
    ensures SplitLines(line) == [line]
  {
    FirstBreakNone(line);
  }

  /** A line ended by "\n" is split off the front. */
  lemma SplitAtNewline(line: string, tail: string)
    requires NoBreak(line)
    ensures SplitLines(line + "\n" + tail) == [line] + SplitLines(tail)
  {
    var s := line + "\n" + tail;
    FirstBreakOf(line, "\n" + tail);
    assert s == line + ("\n" + tail);
    assert s[..|line|] == line;
    assert s[|line|] == '\n';
    assert s[|line| + 1..] == tail;
  }

  lemma TerminatedCons(lines: seq<string>, s: string)
    requires |lines| > 0
    ensures Terminated(lines) + s == lines[0] + "\n" + (Terminated(lines[1..]) + s)
  {
  }

  lemma ConsAppend<T>(a: seq<T>, b: seq<T>)
    requires |a| > 0
    ensures [a[0]] + (a[1..] + b) == a + b
  {
  }

  lemma InitLast<T>(a: seq<T>)
    requires |a| > 0
    ensures a[..|a| - 1] + [a[|a| - 1]] == a
  {
  }

  lemma AppendEmpty<T>(a: seq<T>)
    ensures a + [] == a
  {
  }

  /** Newline-terminated lines split back into exactly those lines. */
  lemma {:induction false} SplitTerminated(lines: seq<string>, s: string)
    requires AllNoBreak(lines)
    ensures SplitLines(Terminated(lines) + s) == lines + SplitLines(s)
    decreases |lines|
  {
    if |lines| > 0 {
      var tail := Terminated(lines[1..]) + s;
      TerminatedCons(lines, s);
      SplitAtNewline(lines[0], tail);
      SplitTerminated(lines[1..], s);
      assert SplitLines(Terminated(lines) + s) == [lines[0]] + (lines[1..] + SplitLines(s));
      ConsAppend(lines, SplitLines(s));
    } else {
      assert Terminated(lines) + s == s;
    }
  }

  lemma {:induction false} JoinIsTerminatedPrefix(lines: seq<string>)
    requires |lines| > 0
    ensures JoinLines(lines) == Terminated(lines[..|lines| - 1]) + lines[|lines| - 1]
    ensures JoinLines(lines) + "\n" == Terminated(lines)
    decreases |lines|
  {
    if |lines| > 1 {
      JoinIsTerminatedPrefix(lines[1..]);
      assert lines[1..][..|lines| - 2] == lines[..|lines| - 1][1..];
    }
  }

  /** `"\n".join` is undone by `splitlines` unless the last line is empty. */
  lemma SplitJoin(lines: seq<string>)
    requires AllNoBreak(lines)
    requires |lines| == 0 || lines[|lines| - 1] != ""
    ensures SplitLines(JoinLines(lines)) == lines
  {
    if |lines| > 0 {
      var n := |lines|;
      JoinIsTerminatedPrefix(lines);
      SplitTerminated(lines[..n - 1], lines[n - 1]);
      SplitOneLine(lines[n - 1]);
      assert SplitLines(JoinLines(lines)) == lines[..n - 1] + [lines[n - 1]];
      InitLast(lines);
    }
  }

  /** `"\n".join(lines) + "\n"` is undone by `splitlines` for any non-empty list. */
  lemma SplitJoinNewline(lines: seq<string>)
    requires AllNoBreak(lines) && |lines| > 0
    ensures SplitLines(JoinLines(lines) + "\n") == lines
  {
    JoinIsTerminatedPrefix(lines);
    SplitTerminated(lines, "");
    assert Terminated(lines) + "" == Terminated(lines);
    assert SplitLines(JoinLines(lines) + "\n") == lines + [];
    AppendEmpty(lines);
  }

  lemma StripKeepsNoBreak(lines: seq<string>)
    requires AllNoBreak(lines)
    ensures AllNoBreak(StripAll(lines))
  {
    forall j | 0 <= j < |lines|
      ensures NoBreak(StripAll(lines)[j])
    {
      var l := lines[j];
      var r := LStrip(l);
      forall i | 0 <= i < |r|
        ensures !IsLineBreak(r[i])
      {
        assert r[i] == l[LeadingSpace(l) + i];
      }
    }
  }

  // ---------------------------------------------------------------------------
  // nildent
  // ---------------------------------------------------------------------------

  /** `nildent(text)`: every line left-stripped, joined by newlines, with a
      final newline when `text` ends with one. */
  function Nildent(text: string): string {
    JoinLines(StripAll(SplitLines(text))) + (if EndsWith(text, "\n") then "\n" else "")
  }

  /** A trailing newline is kept. */
  lemma NildentKeepsTrailingNewline(text: string)
    ensures EndsWith(text, "\n") ==> EndsWith(Nildent(text), "\n")
  {
  }

  /** Joined lines whose last line is non-empty and boundary-free do not end
      with a newline. */
  lemma JoinLinesEndsInLastLine(lines: seq<string>)
    requires |lines| > 0 && lines[|lines| - 1] != "" && NoBreak(lines[|lines| - 1])
    ensures !EndsWith(JoinLines(lines), "\n")
  {
    JoinIsTerminatedPrefix(lines);
    var last := lines[|lines| - 1];
    var out := JoinLines(lines);
    assert out[|out| - 1] == last[|last| - 1];
    assert !IsLineBreak(last[|last| - 1]);
  }

  /** The lines of the result are the left-stripped lines of `text`, provided
      `text` ends with a newline or its last line is not all white space. */
  lemma NildentKeepsLines(text: string)
    requires var stripped := StripAll(SplitLines(text));
             EndsWith(text, "\n") || |stripped| == 0 || stripped[|stripped| - 1] != ""
    ensures SplitLines(Nildent(text)) == StripAll(SplitLines(text))
    ensures EndsWith(Nildent(text), "\n") <==> EndsWith(text, "\n")
  {
    if EndsWith(text, "\n") {
      NildentKeepsLinesTerminated(text);
    } else {
      NildentKeepsLinesUnterminated(text);
    }
  }

  lemma NildentKeepsLinesTerminated(text: string)
    requires EndsWith(text, "\n")
    ensures SplitLines(Nildent(text)) == StripAll(SplitLines(text))
    ensures EndsWith(Nildent(text), "\n")
  {
    var stripped := StripAll(SplitLines(text));
    StripKeepsNoBreak(SplitLines(text));
    assert Nildent(text) == JoinLines(stripped) + "\n";
    SplitJoinNewline(stripped);
  }

  lemma NildentKeepsLinesUnterminated(text: string)
    requires var stripped := StripAll(SplitLines(text));
             !EndsWith(text, "\n") && (|stripped| == 0 || stripped[|stripped| - 1] != "")
    ensures SplitLines(Nildent(text)) == StripAll(SplitLines(text))
    ensures !EndsWith(Nildent(text), "\n")
  {
    var stripped := StripAll(SplitLines(text));
    StripKeepsNoBreak(SplitLines(text));
    assert Nildent(text) == JoinLines(stripped);
    SplitJoin(stripped);
    if |stripped| > 0 {
      JoinLinesEndsInLastLine(stripped);
    }
  }

  lemma ExampleLines()
    ensures var lines := SplitLines("a\n ");
            |lines| == 2 && lines[0] == "a" && lines[1] == " "
  {
    assert "a\n " == "a" + "\n" + " ";
    SplitAtNewline("a", " ");
    SplitOneLine(" ");
  }

  lemma ExampleLinesTerminated()
    ensures var lines := SplitLines("a\n");
            |lines| == 1 && lines[0] == "a"
  {
    assert "a\n" == "a" + "\n" + "";
    SplitAtNewline("a", "");
  }

  lemma StripTwoLines(first: string, last: string)
    requires NoBreak(first) && NoBreak(last) && |last| > 0 && LeadingSpace(last) == |last|
    ensures var stripped := StripAll(SplitLines(first + "\n" + last));
            |stripped| == 2 && stripped[0] == LStrip(first) && stripped[1] == ""
  {
    SplitAtNewline(first, last);
    SplitOneLine(last);
  }

  /** A last line made only of white space disappears from `nildent`'s result. */
  lemma NildentOfBlankLastLine(first: string, last: string)
    requires NoBreak(first) && NoBreak(last) && |last| > 0 && LeadingSpace(last) == |last|
    ensures Nildent(first + "\n" + last) == LStrip(first) + "\n"
  {
    var text := first + "\n" + last;
    StripTwoLines(first, last);
    var stripped := StripAll(SplitLines(text));
    assert JoinLines(stripped) == LStrip(first) + "\n" + JoinLines(stripped[1..]);
    assert JoinLines(stripped[1..]) == "";
    assert !EndsWith(text, "\n") by {
      assert text[|text| - 1] == last[|last| - 1];
    }
  }

  lemma ExampleNildent()
    ensures Nildent("a\n ") == "a\n"
  {
    assert NoBreak(" ") && NoBreak("a");
    assert LeadingSpace(" ") == 1;
    assert LStrip("a") == "a";
    NildentOfBlankLastLine("a", " ");
    assert "a" + "\n" + " " == "a\n ";
  }

  /** As written, a last line made only of white space is lost, and the
      result then ends with a newline that `text` did not end with. */
  lemma NildentDropsBlankLastLine()
    ensures |SplitLines("a\n ")| == 2
    ensures Nildent("a\n ") == "a\n"
    ensures |SplitLines(Nildent("a\n "))| == 1
    ensures !EndsWith("a\n ", "\n") && EndsWith(Nildent("a\n "), "\n")
  {
    ExampleLines();
    ExampleLinesTerminated();
    ExampleNildent();
    assert "a\n "[2..] == " ";
  }

  /** `nildent` keeping every line: the final newline is also written when
      the last stripped line is empty, so that it is not lost. */
  function NildentKeepingLines(text: string): string {
    var stripped := StripAll(SplitLines(text));
    JoinLines(stripped) +
      (if |stripped| > 0 && (EndsWith(text, "\n") || stripped[|stripped| - 1] == "") then "\n" else "")
  }

  /** The corrected `nildent` keeps the number of lines and left-strips each
      one, for every text, and still keeps a trailing newline. */
  lemma NildentKeepingLinesKeepsLines(text: string)
    ensures SplitLines(NildentKeepingLines(text)) == StripAll(SplitLines(text))
    ensures EndsWith(text, "\n") ==> EndsWith(NildentKeepingLines(text), "\n")
  {
    var stripped := StripAll(SplitLines(text));
    var out := NildentKeepingLines(text);
    StripKeepsNoBreak(SplitLines(text));
    if |stripped| > 0 && (EndsWith(text, "\n") || stripped[|stripped| - 1] == "") {
      assert out == JoinLines(stripped) + "\n";
      SplitJoinNewline(stripped);
    } else {
      assert out == JoinLines(stripped);
      SplitJoin(stripped);
    }
  }

  /** The correction changes `nildent` only on the texts where it loses a line. */
  lemma NildentKeepingLinesAgrees(text: string)
    ensures var stripped := StripAll(SplitLines(text));
            NildentKeepingLines(text) == Nildent(text) <==>
              (EndsWith(text, "\n") || |stripped| == 0 || stripped[|stripped| - 1] != "")
  {
    var stripped := StripAll(SplitLines(text));
    var joined := JoinLines(stripped);
    assert Nildent(text) == joined + (if EndsWith(text, "\n") then "\n" else "");
    if |stripped| > 0 && (EndsWith(text, "\n") || stripped[|stripped| - 1] == "") {
      assert NildentKeepingLines(text) == joined + "\n";
      if !EndsWith(text, "\n") {
        assert |Nildent(text)| != |NildentKeepingLines(text)|;
      }
    } else {
      assert NildentKeepingLines(text) == joined;
    }
  }

  // ---------------------------------------------------------------------------
  // list_sum
  // ---------------------------------------------------------------------------

  function TotalLength<T>(lists: seq<seq<T>>): nat {
    if |lists| == 0 then 0 else TotalLength(lists[..|lists| - 1]) + |lists[|lists| - 1]|
  }

  /** `reduce(lambda a, b: a + b, lists, [])`: the in-order concatenation. */
  function ListSum<T>(lists: seq<seq<T>>): (r: seq<T>)
    ensures |r| == TotalLength(lists)
  {
    if |lists| == 0 then [] else ListSum(lists[..|lists| - 1]) + lists[|lists| - 1]
  }

  /** Concatenation distributes over splitting the list of lists. */
  lemma {:induction false} ListSumAppend<T>(a: seq<seq<T>>, b: seq<seq<T>>)
    ensures ListSum(a + b) == ListSum(a) + ListSum(b)
    decreases |b|
  {
    if |b| == 0 {
      assert a + b == a;
    } else {
      var n := |b| - 1;
      var ab := a + b;
      assert ab[..|ab| - 1] == a + b[..n];
      assert ab[|ab| - 1] == b[n];
      assert ListSum(ab) == ListSum(a + b[..n]) + b[n];
      ListSumAppend(a, b[..n]);
      assert ListSum(b) == ListSum(b[..n]) + b[n];
    }
  }

  /** An element is in the concatenation iff it is in one of the lists. */
  lemma {:induction false} ListSumContains<T>(lists: seq<seq<T>>, x: T)
    ensures x in ListSum(lists) <==> exists j :: 0 <= j < |lists| && x in lists[j]
    decreases |lists|
  {
    if |lists| > 0 {
      var n := |lists| - 1;
      ListSumContains(lists[..n], x);
      if x in ListSum(lists[..n]) {
        var j :| 0 <= j < n && x in lists[..n][j];
        assert x in lists[j];
      }
    }
  }

  /** Element `i` of list `j` sits right after everything in the earlier lists. */
  lemma ListSumPlacesElement<T>(lists: seq<seq<T>>, j: nat, i: nat)
    requires j < |lists| && i < |lists[j]|
    ensures |ListSum(lists[..j])| + i < |ListSum(lists)|
    ensures ListSum(lists)[|ListSum(lists[..j])| + i] == lists[j][i]
  {
    assert lists == lists[..j] + ([lists[j]] + lists[j + 1..]);
    ListSumAppend(lists[..j], [lists[j]] + lists[j + 1..]);
    ListSumAppend([lists[j]], lists[j + 1..]);
    assert ListSum([lists[j]]) == [] + lists[j] by {
      assert [lists[j]][..0] == [];
    }
  }

  // ---------------------------------------------------------------------------
  // ms2samples
  // ---------------------------------------------------------------------------

  /** `t * fs // 1000` for integer `t` (ms) and `fs` (Hz). */
  function Ms2Samples(t: int, fs: int): (n: int)
    ensures 1000 * n <= t * fs < 1000 * n + 1000
  {
    FloorDiv(t * fs, 1000)
  }

  /** Whole seconds convert exactly, and a longer time never gives fewer samples. */
  lemma Ms2SamplesExactAndMonotone(t: int, u: int, fs: nat, k: int)
    ensures Ms2Samples(1000 * k, fs) == k * fs
    ensures t <= u ==> Ms2Samples(t, fs) <= Ms2Samples(u, fs)
  {
    var q := Ms2Samples(1000 * k, fs);
    assert 1000 * q <= 1000 * (k * fs) < 1000 * q + 1000;
    if t <= u {
      assert t * fs <= u * fs by {
        assert (u - t) * fs >= 0;
      }
    }
  }
}
