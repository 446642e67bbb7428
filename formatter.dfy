/** The output formatter of the renderer (`ContentFormatter` in
    features/document_render.py): it keeps the rendered text, collapses each
    run of whitespace-only lines into a single "\n", or drops every blank line.

    Lines are what `str.splitlines(True)` yields, with '\n' as the only line
    boundary; a line is blank when `str.strip()` would leave nothing of it. */
module ContentFormatting {
  import opened Base

  // ---------------------------------------------------------------------------
  // Lines

  /** `not line.strip()`: the line holds nothing but whitespace. */
  predicate IsBlank(line: string) {
    forall i :: 0 <= i < |line| ==> IsSpace(line[i])
  }

  /** Index of the first '\n' in `s`, or `|s|` when there is none. */
  function NewlineIndex(s: string): (k: nat)
    ensures k <= |s|
    ensures forall j :: 0 <= j < k ==> s[j] != '\n'
    ensures k < |s| ==> s[k] == '\n'
  {
    if s == [] || s[0] == '\n' then 0 else 1 + NewlineIndex(s[1..])
  }

  /** `s.splitlines(True)`: the lines of `s`, each keeping its terminator. */
  function SplitLines(s: string): seq<string>
    decreases |s|
  {
    if s == [] then []
    else
      var k := NewlineIndex(s);
      if k == |s| then [s] else [s[..k + 1]] + SplitLines(s[k + 1..])
  }

  /** `"".join(lines)`. */
  function Join(lines: seq<string>): string {
    if lines == [] then "" else lines[0] + Join(lines[1..])
  }

  /** A single line: non-empty, and a '\n' can only be its last character. */
  predicate IsLine(l: string) {
    l != [] && forall j :: 0 <= j < |l| - 1 ==> l[j] != '\n'
  }

  predicate EndsWithNewline(l: string) {
    l != [] && l[|l| - 1] == '\n'
  }

  /** What `SplitLines` produces: lines, all terminated except possibly the last. */
  predicate IsLineList(lines: seq<string>) {
    && (forall i :: 0 <= i < |lines| ==> IsLine(lines[i]))
    && (forall i :: 0 <= i < |lines| - 1 ==> EndsWithNewline(lines[i]))
  }

  lemma {:induction false} JoinAppend(a: seq<string>, b: seq<string>)
    ensures Join(a + b) == Join(a) + Join(b)
  {
    if a != [] {
      assert (a + b)[1..] == a[1..] + b;
      JoinAppend(a[1..], b);
    } else {
      assert a + b == b;
    }
  }

  /** Splitting a text into lines and joining them again gives the text back. */
  lemma {:induction false} JoinSplitLines(s: string)
    ensures Join(SplitLines(s)) == s
    decreases |s|
  {
    if s != [] {
      var k := NewlineIndex(s);
      if k < |s| {
        JoinSplitLines(s[k + 1..]);
        assert s == s[..k + 1] + s[k + 1..];
      }
    }
  }

  /** Every element `SplitLines` yields is a line, and only the last may lack '\n'. */
  lemma {:induction false} SplitLinesWellFormed(s: string)
    ensures IsLineList(SplitLines(s))
    decreases |s|
  {
    if s != [] {
      var k := NewlineIndex(s);
      if k < |s| {
        SplitLinesWellFormed(s[k + 1..]);
        var rest := SplitLines(s[k + 1..]);
        assert SplitLines(s) == [s[..k + 1]] + rest;
        assert EndsWithNewline(s[..k + 1]);
      }
    }
  }

  /** Joining a well-formed line list and splitting the result recovers the list. */
  lemma {:induction false} SplitLinesJoin(lines: seq<string>)
    requires IsLineList(lines)
    ensures SplitLines(Join(lines)) == lines
  {
    if lines != [] {
      var l, rest := lines[0], lines[1..];
      assert IsLineList(rest) by {
        forall i | 0 <= i < |rest| ensures IsLine(rest[i]) { assert rest[i] == lines[i + 1]; }
        forall i | 0 <= i < |rest| - 1 ensures EndsWithNewline(rest[i]) { assert rest[i] == lines[i + 1]; }
      }
      SplitLinesJoin(rest);
      var s := Join(lines);
      assert s == l + Join(rest);
      assert IsLine(l);
      if rest == [] {
        assert s == l;
        if EndsWithNewline(l) {
          assert NewlineIndex(s) == |l| - 1 by { NewlineIndexAt(s, |l| - 1); }
          assert s[|l|..] == [];
          assert l[..|l|] == l;
        } else {
          assert NewlineIndex(s) == |s| by { NewlineIndexAt(s, |s|); }
        }
      } else {
        assert EndsWithNewline(l);
        assert NewlineIndex(s) == |l| - 1 by { NewlineIndexAt(s, |l| - 1); }
        assert s[..|l|] == l;
        assert s[|l|..] == Join(rest);
      }
    }
  }

  /** `NewlineIndex` is determined by where the first '\n' stands. */
  lemma {:induction false} NewlineIndexAt(s: string, k: nat)
    requires k <= |s|
    requires forall j :: 0 <= j < k ==> s[j] != '\n'
    requires k < |s| ==> s[k] == '\n'
    ensures NewlineIndex(s) == k
  {
    if s != [] && s[0] != '\n' {
      NewlineIndexAt(s[1..], k - 1);
    }
  }

  // ---------------------------------------------------------------------------
  // Dropping blank lines (format type 4)

  /** The non-blank lines of `lines`, in their original order. */
  function NonBlankLines(lines: seq<string>): (r: seq<string>)
    ensures |r| <= |lines|
    ensures forall j :: 0 <= j < |r| ==> !IsBlank(r[j])
  {
    if lines == [] then []
    else
      var last := lines[|lines| - 1];
      NonBlankLines(lines[..|lines| - 1]) + (if IsBlank(last) then [] else [last])
  }

  lemma {:induction false} NonBlankLinesAppend(a: seq<string>, b: seq<string>)
    ensures NonBlankLines(a + b) == NonBlankLines(a) + NonBlankLines(b)
    decreases |b|
  {
    if b == [] {
      assert a + b == a;
    } else {
      assert (a + b)[..|a + b| - 1] == a + b[..|b| - 1];
      NonBlankLinesAppend(a, b[..|b| - 1]);
    }
  }

  /** Dropping blank lines from a well-formed line list leaves a well-formed line list. */
  lemma {:induction false} NonBlankLinesWellFormed(lines: seq<string>)
    requires IsLineList(lines)
    ensures IsLineList(NonBlankLines(lines))
  {
    if lines != [] {
      var init := lines[..|lines| - 1];
      assert IsLineList(init) by {
        forall i | 0 <= i < |init| ensures IsLine(init[i]) { assert init[i] == lines[i]; }
        forall i | 0 <= i < |init| - 1 ensures EndsWithNewline(init[i]) { assert init[i] == lines[i]; }
      }
      NonBlankLinesWellFormed(init);
      assert forall i :: 0 <= i < |init| ==> EndsWithNewline(init[i]) by {
        forall i | 0 <= i < |init| ensures EndsWithNewline(init[i]) { assert init[i] == lines[i]; }
      }
      TerminatedFilter(init);
    }
  }

  /** Filtering keeps only elements of the input, so terminated lines stay terminated. */
  lemma {:induction false} TerminatedFilter(ls: seq<string>)
    requires forall i :: 0 <= i < |ls| ==> EndsWithNewline(ls[i])
    ensures forall j :: 0 <= j < |NonBlankLines(ls)| ==> EndsWithNewline(NonBlankLines(ls)[j])
  {
    if ls != [] {
      var init := ls[..|ls| - 1];
      assert forall i :: 0 <= i < |init| ==> EndsWithNewline(init[i]) by {
        forall i | 0 <= i < |init| ensures EndsWithNewline(init[i]) { assert init[i] == ls[i]; }
      }
      TerminatedFilter(init);
    }
  }

  /** `ContentFormatter._remove_all_whitespace`. */
  function RemoveAllWhitespace(content: string): string {
    Join(NonBlankLines(SplitLines(content)))
  }

  /** The lines of the text format type 4 produces are exactly the non-blank
      lines of the input, in order; so the result holds no blank line at all. */
  lemma RemoveAllWhitespaceLines(content: string)
    ensures SplitLines(RemoveAllWhitespace(content)) == NonBlankLines(SplitLines(content))
    ensures forall l :: l in SplitLines(RemoveAllWhitespace(content)) ==> !IsBlank(l)
  {
    SplitLinesWellFormed(content);
    NonBlankLinesWellFormed(SplitLines(content));
    SplitLinesJoin(NonBlankLines(SplitLines(content)));
  }

  /** Removing blank lines twice removes nothing more. */
  lemma RemoveAllWhitespaceIdempotent(content: string)
    ensures RemoveAllWhitespace(RemoveAllWhitespace(content)) == RemoveAllWhitespace(content)
  {
    var kept := NonBlankLines(SplitLines(content));
    RemoveAllWhitespaceLines(content);
    NonBlankLinesOfNonBlank(kept);
  }

  lemma {:induction false} NonBlankLinesOfNonBlank(ls: seq<string>)
    requires forall j :: 0 <= j < |ls| ==> !IsBlank(ls[j])
    ensures NonBlankLines(ls) == ls
  {
    if ls != [] {
      NonBlankLinesOfNonBlank(ls[..|ls| - 1]);
    }
  }

  // ---------------------------------------------------------------------------
  // Collapsing runs of blank lines (format types 1 and 3)

  /** What the line at index `i` contributes: itself when it has text, a single
      "\n" when it opens a run of blank lines, nothing when it continues one. */
  function Piece(lines: seq<string>, i: nat): seq<string>
    requires i < |lines|
  {
    if !IsBlank(lines[i]) then [lines[i]]
    else if i == 0 || !IsBlank(lines[i - 1]) then ["\n"]
    else []
  }

  /** The contributions of the first `n` lines. */
  function CompressedPrefix(lines: seq<string>, n: nat): seq<string>
    requires n <= |lines|
  {
    if n == 0 then [] else CompressedPrefix(lines, n - 1) + Piece(lines, n - 1)
  }

  /** Each maximal run of blank lines replaced by a single "\n". */
  function CompressLines(lines: seq<string>): seq<string> {
    CompressedPrefix(lines, |lines|)
  }

  /** The text `ContentFormatter._compress_whitespace` returns. */
  function CompressedText(content: string): string {
    Join(CompressLines(SplitLines(content)))
  }

  /** `ContentFormatter._compress_whitespace`: one pass over the lines with a
      flag that remembers whether the previous line was blank. */
  method CompressWhitespace(content: string) returns (r: string)
    ensures r == CompressedText(content)
  {
    var lines := SplitLines(content);
    var result: seq<string> := [];
    var prevEmpty := false;
    for i := 0 to |lines|
      invariant result == CompressedPrefix(lines, i)
      invariant prevEmpty == (i > 0 && IsBlank(lines[i - 1]))
    {
      var isEmpty := IsBlank(lines[i]);
      if !isEmpty {
        result := result + [lines[i]];
        prevEmpty := false;
      } else if !prevEmpty {
        result := result + ["\n"];
        prevEmpty := true;
      }
    }
    r := Join(result);
  }

  /** The last contribution so far is blank exactly when the last line read was. */
  lemma {:induction false} CompressedPrefixLast(lines: seq<string>, n: nat)
    requires 0 < n <= |lines|
    ensures var c := CompressedPrefix(lines, n);
      c != [] && IsBlank(c[|c| - 1]) == IsBlank(lines[n - 1])
  {
    var p := Piece(lines, n - 1);
    var before := CompressedPrefix(lines, n - 1);
    var c := CompressedPrefix(lines, n);
    assert c == before + p;
    if p == [] {
      assert n - 1 > 0 && IsBlank(lines[n - 2]);
      CompressedPrefixLast(lines, n - 1);
      assert c == before;
    } else {
      assert |p| == 1;
      assert c[|c| - 1] == p[0];
      BlankPiece(lines, n - 1);
    }
  }

  lemma BlankPiece(lines: seq<string>, i: nat)
    requires i < |lines| && Piece(lines, i) != []
    ensures IsBlank(Piece(lines, i)[0]) == IsBlank(lines[i])
  {
    if IsBlank(lines[i]) {
      assert Piece(lines, i) == ["\n"];
      assert IsSpace('\n');
    }
  }

  /** The collapsed lines never hold two blank lines in a row, and every blank
      line they do hold is exactly "\n". */
  lemma {:induction false} CompressLinesShape(lines: seq<string>, n: nat)
    requires n <= |lines|
    ensures forall j :: 0 <= j < |CompressedPrefix(lines, n)| && IsBlank(CompressedPrefix(lines, n)[j])
              ==> CompressedPrefix(lines, n)[j] == "\n"
    ensures forall j :: 0 <= j < |CompressedPrefix(lines, n)| - 1
              ==> !(IsBlank(CompressedPrefix(lines, n)[j]) && IsBlank(CompressedPrefix(lines, n)[j + 1]))
  {
    if n > 0 {
      CompressLinesShape(lines, n - 1);
      var before := CompressedPrefix(lines, n - 1);
      var all := CompressedPrefix(lines, n);
      assert all == before + Piece(lines, n - 1);
      if before != [] && Piece(lines, n - 1) != [] && IsBlank(Piece(lines, n - 1)[0]) {
        CompressedPrefixLast(lines, n - 1);
        assert IsBlank(lines[n - 1]);
        assert !IsBlank(lines[n - 2]);
        assert !IsBlank(before[|before| - 1]);
      }
    }
  }

  /** Collapsing loses no text: the non-blank lines are kept verbatim and in order. */
  lemma {:induction false} CompressKeepsNonBlankLines(lines: seq<string>, n: nat)
    requires n <= |lines|
    ensures NonBlankLines(CompressedPrefix(lines, n)) == NonBlankLines(lines[..n])
  {
    if n > 0 {
      CompressKeepsNonBlankLines(lines, n - 1);
      NonBlankLinesAppend(CompressedPrefix(lines, n - 1), Piece(lines, n - 1));
      assert lines[..n][..n - 1] == lines[..n - 1];
      var p := Piece(lines, n - 1);
      if p != [] && IsBlank(p[0]) {
        assert NonBlankLines(p) == NonBlankLines([] + p);
      }
    }
  }

  /** Every contribution of a line before the last one ends with '\n'. */
  lemma {:induction false} CompressedPrefixTerminated(lines: seq<string>, n: nat)
    requires IsLineList(lines)
    requires n < |lines|
    ensures forall j :: 0 <= j < |CompressedPrefix(lines, n)| ==>
      IsLine(CompressedPrefix(lines, n)[j]) && EndsWithNewline(CompressedPrefix(lines, n)[j])
  {
    if n > 0 {
      CompressedPrefixTerminated(lines, n - 1);
      assert IsLine(lines[n - 1]) && EndsWithNewline(lines[n - 1]);
    }
  }

  lemma CompressLinesWellFormed(lines: seq<string>)
    requires IsLineList(lines)
    ensures IsLineList(CompressLines(lines))
  {
    if lines != [] {
      var n := |lines|;
      var before := CompressedPrefix(lines, n - 1);
      var p := Piece(lines, n - 1);
      var all := CompressLines(lines);
      assert all == before + p;
      CompressedPrefixTerminated(lines, n - 1);
      assert IsLine(lines[n - 1]);
      assert forall l :: l in p ==> IsLine(l) by {
        assert IsLine("\n");
      }
      forall i | 0 <= i < |all| ensures IsLine(all[i]) {
        if i < |before| { assert all[i] == before[i]; } else { assert all[i] in p; }
      }
      forall i | 0 <= i < |all| - 1 ensures EndsWithNewline(all[i]) {
        assert |p| <= 1;
        assert i < |before|;
        assert all[i] == before[i];
      }
    }
  }

  /** Reading the collapsed text back as lines gives exactly the collapsed line
      list: its lines have text or are "\n", never two blank ones in a row, and
      its non-blank lines are those of the input. */
  lemma CompressedTextLines(content: string)
    ensures SplitLines(CompressedText(content)) == CompressLines(SplitLines(content))
    ensures var out := SplitLines(CompressedText(content));
      && (forall j :: 0 <= j < |out| - 1 ==> !(IsBlank(out[j]) && IsBlank(out[j + 1])))
      && (forall j :: 0 <= j < |out| && IsBlank(out[j]) ==> out[j] == "\n")
    ensures NonBlankLines(SplitLines(CompressedText(content))) == NonBlankLines(SplitLines(content))
  {
    var lines := SplitLines(content);
    SplitLinesWellFormed(content);
    CompressLinesWellFormed(lines);
    SplitLinesJoin(CompressLines(lines));
    CompressLinesShape(lines, |lines|);
    CompressKeepsNonBlankLines(lines, |lines|);
    assert lines[..|lines|] == lines;
  }

  /** Dropping blank lines after collapsing them gives the same text as dropping them directly. */
  lemma RemoveAfterCompress(content: string)
    ensures RemoveAllWhitespace(CompressedText(content)) == RemoveAllWhitespace(content)
  {
    CompressedTextLines(content);
  }

  // ---------------------------------------------------------------------------
  // Dispatch on the format type

  /** What `ContentFormatter.format` returns, or the text of the `ValueError` it raises. */
  function Formatted(content: string, formatType: int): (r: Result<string, string>)
    ensures r.Ok? <==> 0 <= formatType <= 4
    ensures r.Err? ==> r.error == "Unsupported format type"
    ensures (formatType == 0 || formatType == 2) ==> r == Ok(content)
    ensures r.Ok? ==> NonBlankLines(SplitLines(r.value)) == NonBlankLines(SplitLines(content))
    ensures (formatType == 1 || formatType == 3) ==>
      var out := SplitLines(r.value);
      forall j :: 0 <= j < |out| - 1 ==> !(IsBlank(out[j]) && IsBlank(out[j + 1]))
    ensures formatType == 4 ==> forall l :: l in SplitLines(r.value) ==> !IsBlank(l)
  {
    if formatType == 0 || formatType == 2 then Ok(content)
    else if formatType == 1 || formatType == 3 then
      CompressedTextLines(content);
      Ok(CompressedText(content))
    else if formatType == 4 then
      RemoveAllWhitespaceLines(content);
      NonBlankLinesOfNonBlank(NonBlankLines(SplitLines(content)));
      Ok(RemoveAllWhitespace(content))
    else Err("Unsupported format type")
  }

  /** `ContentFormatter.format`. */
  method Format(content: string, formatType: int) returns (r: Result<string, string>)
    ensures r == Formatted(content, formatType)
  {
    if formatType == 0 || formatType == 2 {
      r := Ok(content);
    } else if formatType == 1 || formatType == 3 {
      var s := CompressWhitespace(content);
      r := Ok(s);
    } else if formatType == 4 {
      r := Ok(RemoveAllWhitespace(content));
    } else {
      r := Err("Unsupported format type");
    }
  }
}
