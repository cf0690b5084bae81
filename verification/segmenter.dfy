/** `parse_file`: the document is cut into paragraphs at blank lines. Each
    paragraph is one maximal run of non-blank lines, stripped and joined with
    single spaces. */
module Segmenter {
  import opened Text

  /** A line of whitespace only, which `strip` empties, so that `if line:`
      is false (see the contract of `Strip`). */
  predicate IsBlank(line: string) {
    AllSpace(line)
  }

  function StripAll(lines: seq<string>): seq<string> {
    seq(|lines|, i requires 0 <= i < |lines| => Strip(lines[i]))
  }

  /** Number of non-blank lines before the first blank line (or the end). */
  function RunLength(lines: seq<string>): (k: nat)
    ensures k <= |lines|
    ensures forall i :: 0 <= i < k ==> !IsBlank(lines[i])
    ensures k < |lines| ==> IsBlank(lines[k])
    decreases |lines|
  {
    if lines == [] || IsBlank(lines[0]) then 0
    else 1 + RunLength(lines[1..])
  }

  /** The maximal runs of consecutive non-blank lines, stripped, in document
      order. This is the reference the segmenter is proved against. */
  function Runs(lines: seq<string>): seq<seq<string>>
    decreases |lines|
  {
    if lines == [] then []
    else if IsBlank(lines[0]) then Runs(lines[1..])
    else
      var k := RunLength(lines);
      [StripAll(lines[..k])] + Runs(lines[k..])
  }

  /** Every run is non-empty and holds non-empty stripped lines. */
  lemma {:induction false} RunsWellFormed(lines: seq<string>)
    ensures forall j :: 0 <= j < |Runs(lines)| ==> Runs(lines)[j] != []
    ensures forall j, i :: 0 <= j < |Runs(lines)| && 0 <= i < |Runs(lines)[j]| ==>
      Runs(lines)[j][i] != "" && Trimmed(Runs(lines)[j][i])
    decreases |lines|
  {
    if lines != [] {
      if IsBlank(lines[0]) {
        RunsWellFormed(lines[1..]);
      } else {
        var k := RunLength(lines);
        RunsWellFormed(lines[k..]);
        var runs, later := Runs(lines), Runs(lines[k..]);
        assert runs == [StripAll(lines[..k])] + later;
        assert forall j :: 1 <= j < |runs| ==> runs[j] == later[j - 1];
        assert forall i :: 0 <= i < k ==> runs[0][i] == Strip(lines[i]) && !AllSpace(lines[i]);
      }
    }
  }

  /** One paragraph per run: the run joined with single spaces. */
  function JoinRuns(runs: seq<seq<string>>): (paragraphs: seq<string>)
    ensures |paragraphs| == |runs|
    decreases |runs|
  {
    if runs == [] then [] else [JoinWith(" ", runs[0])] + JoinRuns(runs[1..])
  }

  /** The paragraphs a list of lines should produce. */
  function Paragraphs(lines: seq<string>): seq<string> {
    JoinRuns(Runs(lines))
  }

  /** What is still to come when `buffer` holds the run in progress and
      `rest` is the input not yet read: the run in progress grows by the
      non-blank lines at the head of `rest`, then `rest`'s own runs follow. */
  function Pending(buffer: seq<string>, rest: seq<string>): seq<string> {
    if buffer == [] then Paragraphs(rest)
    else
      var k := RunLength(rest);
      [JoinWith(" ", buffer + StripAll(rest[..k]))] + Paragraphs(rest[k..])
  }

  /** A non-blank line extends the run in progress. */
  lemma PendingKeep(buffer: seq<string>, rest: seq<string>)
    requires rest != [] && !IsBlank(rest[0])
    ensures Pending(buffer, rest) == Pending(buffer + [Strip(rest[0])], rest[1..])
  {
    var k := RunLength(rest);
    var tail := rest[1..];
    var k' := RunLength(tail);
    assert k == 1 + k';
    assert StripAll(rest[..k]) == [Strip(rest[0])] + StripAll(tail[..k']);
    assert rest[k..] == tail[k'..];
    assert Runs(rest) == [StripAll(rest[..k])] + Runs(rest[k..]);
    assert buffer + StripAll(rest[..k]) == (buffer + [Strip(rest[0])]) + StripAll(tail[..k']);
  }

  /** A blank line ends the run in progress, if there is one. */
  lemma PendingFlush(buffer: seq<string>, rest: seq<string>)
    requires rest != [] && IsBlank(rest[0])
    ensures Pending(buffer, rest) == (if buffer == [] then [] else [JoinWith(" ", buffer)]) + Pending([], rest[1..])
  {
    assert RunLength(rest) == 0;
    assert Runs(rest) == Runs(rest[1..]);
    assert buffer + StripAll(rest[..0]) == buffer;
    assert rest[0..] == rest;
  }

  /** At the end of the input only the run in progress is left. */
  lemma PendingEnd(buffer: seq<string>)
    ensures Pending(buffer, []) == (if buffer == [] then [] else [JoinWith(" ", buffer)])
  {
    var none: seq<string> := [];
    assert Runs(none) == [];
    assert buffer + StripAll(none[..0]) == buffer;
    assert none[0..] == none;
  }

  /** The loop of `parse_file` over the lines read: stripped non-blank lines
      are buffered, and the buffer is flushed as one paragraph at a blank
      line that follows non-blank ones and at the end of the input. */
  method ParseLines(lines: seq<string>) returns (paragraphs: seq<string>)
    ensures paragraphs == Paragraphs(lines)
  {
    paragraphs := [];
    var buffer: seq<string> := [];
    var rest := lines;
    while rest != []
      invariant paragraphs + Pending(buffer, rest) == Paragraphs(lines)
      decreases |rest|
    {
      var line := Strip(rest[0]);
      if line != "" {
        assert paragraphs + Pending(buffer + [line], rest[1..]) == Paragraphs(lines) by {
          PendingKeep(buffer, rest);
        }
        buffer := buffer + [line];
      } else if |buffer| > 0 {
        assert (paragraphs + [JoinWith(" ", buffer)]) + Pending([], rest[1..]) == Paragraphs(lines) by {
          PendingFlush(buffer, rest);
        }
        paragraphs := paragraphs + [JoinWith(" ", buffer)];
        buffer := [];
      } else {
        assert paragraphs + Pending([], rest[1..]) == Paragraphs(lines) by {
          PendingFlush(buffer, rest);
        }
      }
      rest := rest[1..];
    }
    PendingEnd(buffer);
    if |buffer| > 0 {
      paragraphs := paragraphs + [JoinWith(" ", buffer)];
    }
  }

  /** `parse_file` on the decoded text of the file: its lines, as
      `readlines` cuts them, go through the loop. Every paragraph is
      non-empty, stripped and a single line. */
  method ParseFile(text: string) returns (paragraphs: seq<string>)
    ensures paragraphs == Paragraphs(ReadLines(text))
    ensures forall j :: 0 <= j < |paragraphs| ==> paragraphs[j] != "" && Trimmed(paragraphs[j]) && '\n' !in paragraphs[j]
  {
    paragraphs := ParseLines(ReadLines(text));
    ReadLinesParagraphsOneLine(text);
  }

  /** Every paragraph is non-empty and has no whitespace at either end. */
  lemma {:induction false} JoinRunsWellFormed(runs: seq<seq<string>>)
    requires forall j :: 0 <= j < |runs| ==> runs[j] != []
    requires forall j, i :: 0 <= j < |runs| && 0 <= i < |runs[j]| ==> runs[j][i] != "" && Trimmed(runs[j][i])
    ensures forall j :: 0 <= j < |JoinRuns(runs)| ==> JoinRuns(runs)[j] != "" && Trimmed(JoinRuns(runs)[j])
    decreases |runs|
  {
    if runs != [] {
      JoinTrimmed(" ", runs[0]);
      assert forall j :: 0 <= j < |runs| - 1 ==> runs[1..][j] == runs[j + 1];
      JoinRunsWellFormed(runs[1..]);
    }
  }

  /** The segmenter never yields an empty paragraph, and every paragraph is
      already stripped. */
  lemma ParagraphsWellFormed(lines: seq<string>)
    ensures forall j :: 0 <= j < |Paragraphs(lines)| ==> Paragraphs(lines)[j] != "" && Trimmed(Paragraphs(lines)[j])
  {
    RunsWellFormed(lines);
    JoinRunsWellFormed(Runs(lines));
  }

  /** Runs never contain a newline when no stripped line does. */
  lemma {:induction false} RunsAvoidNewline(lines: seq<string>)
    requires forall i :: 0 <= i < |lines| ==> '\n' !in Strip(lines[i])
    ensures forall j, i :: 0 <= j < |Runs(lines)| && 0 <= i < |Runs(lines)[j]| ==> '\n' !in Runs(lines)[j][i]
    decreases |lines|
  {
    if lines != [] {
      if IsBlank(lines[0]) {
        RunsAvoidNewline(lines[1..]);
      } else {
        var k := RunLength(lines);
        RunsAvoidNewline(lines[k..]);
        var runs, later := Runs(lines), Runs(lines[k..]);
        assert runs == [StripAll(lines[..k])] + later;
        assert forall j :: 1 <= j < |runs| ==> runs[j] == later[j - 1];
        assert forall i :: 0 <= i < k ==> runs[0][i] == Strip(lines[i]);
      }
    }
  }

  /** Paragraphs of a file are single lines: the newline that ends each line
      read is stripped, and they are joined with spaces. */
  lemma ReadLinesParagraphsOneLine(text: string)
    ensures forall j :: 0 <= j < |Paragraphs(ReadLines(text))| ==>
      var p := Paragraphs(ReadLines(text))[j]; p != "" && Trimmed(p) && '\n' !in p
  {
    var lines := ReadLines(text);
    forall i | 0 <= i < |lines| ensures '\n' !in Strip(lines[i]) {
      StripKeepsOneLine(lines[i]);
    }
    RunsAvoidNewline(lines);
    ParagraphsWellFormed(lines);
    JoinRunsAvoid(Runs(lines));
  }

  lemma {:induction false} JoinRunsAvoid(runs: seq<seq<string>>)
    requires forall j, i :: 0 <= j < |runs| && 0 <= i < |runs[j]| ==> '\n' !in runs[j][i]
    ensures forall j :: 0 <= j < |JoinRuns(runs)| ==> '\n' !in JoinRuns(runs)[j]
    decreases |runs|
  {
    if runs != [] {
      JoinAvoids('\n', " ", runs[0]);
      assert forall j :: 0 <= j < |runs| - 1 ==> runs[1..][j] == runs[j + 1];
      JoinRunsAvoid(runs[1..]);
    }
  }

  /** The input is all blank lines (or empty) exactly when there are no
      paragraphs. */
  lemma {:induction false} BlankInputYieldsNothing(lines: seq<string>)
    ensures Paragraphs(lines) == [] <==> forall i :: 0 <= i < |lines| ==> IsBlank(lines[i])
    decreases |lines|
  {
    if lines != [] {
      if IsBlank(lines[0]) {
        BlankInputYieldsNothing(lines[1..]);
        assert forall i :: 1 <= i < |lines| ==> lines[i] == lines[1..][i - 1];
      }
    }
  }

  lemma {:induction false} JoinRunsAppend(a: seq<seq<string>>, b: seq<seq<string>>)
    ensures JoinRuns(a + b) == JoinRuns(a) + JoinRuns(b)
    decreases |a|
  {
    if a == [] {
      assert a + b == b;
    } else {
      assert (a + b)[1..] == a[1..] + b;
      JoinRunsAppend(a[1..], b);
    }
  }

  /** The run at the front ends at the first blank line, wherever it is. */
  lemma RunLengthBeforeBlank(a: seq<string>, l: string, b: seq<string>)
    requires IsBlank(l)
    ensures RunLength(a + [l] + b) == RunLength(a)
  {
    var s := a + [l] + b;
    var k := RunLength(a);
    var K := RunLength(s);
    assert forall i :: 0 <= i < |a| ==> s[i] == a[i];
    assert s[|a|] == l;
  }

  lemma {:induction false} RunsSplitAtBlank(a: seq<string>, l: string, b: seq<string>)
    requires IsBlank(l)
    ensures Runs(a + [l] + b) == Runs(a) + Runs(b)
    decreases |a|
  {
    var s := a + [l] + b;
    if a == [] {
      assert s[0] == l && s[1..] == b;
      assert Runs(s) == Runs(b);
    } else if IsBlank(a[0]) {
      assert s[0] == a[0];
      assert s[1..] == a[1..] + [l] + b;
      RunsSplitAtBlank(a[1..], l, b);
      assert Runs(s) == Runs(s[1..]);
      assert Runs(a) == Runs(a[1..]);
    } else {
      assert s[0] == a[0];
      var k := RunLength(a);
      RunLengthBeforeBlank(a, l, b);
      assert RunLength(s) == k;
      assert s[..k] == a[..k];
      assert s[k..] == a[k..] + [l] + b;
      RunsSplitAtBlank(a[k..], l, b);
      assert Runs(s) == [StripAll(a[..k])] + Runs(s[k..]);
      assert Runs(a) == [StripAll(a[..k])] + Runs(a[k..]);
    }
  }

  /** A blank line separates: the lines before it and after it are segmented
      independently, so extra blank lines add no paragraph. */
  lemma SplitAtBlank(a: seq<string>, l: string, b: seq<string>)
    requires IsBlank(l)
    ensures Paragraphs(a + [l] + b) == Paragraphs(a) + Paragraphs(b)
  {
    RunsSplitAtBlank(a, l, b);
    JoinRunsAppend(Runs(a), Runs(b));
  }

  /** Consecutive non-blank lines form a single paragraph, their stripped
      contents joined by single spaces. */
  lemma SingleRun(lines: seq<string>)
    requires lines != []
    requires forall i :: 0 <= i < |lines| ==> !IsBlank(lines[i])
    ensures Paragraphs(lines) == [JoinWith(" ", StripAll(lines))]
  {
    var k := RunLength(lines);
    assert k == |lines|;
    assert lines[..k] == lines;
    assert lines[k..] == [];
    var runs := [StripAll(lines)];
    assert Runs(lines) == runs;
    assert runs[1..] == [];
  }

  /** The non-blank lines of the input, stripped, in order. */
  function Kept(lines: seq<string>): seq<string>
    decreases |lines|
  {
    if lines == [] then []
    else if IsBlank(lines[0]) then Kept(lines[1..])
    else [Strip(lines[0])] + Kept(lines[1..])
  }

  /** Concatenation of runs. */
  function Flatten(runs: seq<seq<string>>): seq<string>
    decreases |runs|
  {
    if runs == [] then [] else runs[0] + Flatten(runs[1..])
  }

  /** Stripping a prefix of lines strips its first line, then the rest. */
  lemma StripAllCons(lines: seq<string>, k: nat)
    requires 0 < k <= |lines|
    ensures StripAll(lines[..k]) == [Strip(lines[0])] + StripAll(lines[1..][..k - 1])
  {
    var a, b := StripAll(lines[..k]), StripAll(lines[1..][..k - 1]);
    assert forall i :: 0 <= i < k - 1 ==> a[i + 1] == b[i];
  }

  lemma {:induction false} KeptRun(lines: seq<string>, k: nat)
    requires k <= |lines|
    requires forall i :: 0 <= i < k ==> !IsBlank(lines[i])
    ensures Kept(lines) == StripAll(lines[..k]) + Kept(lines[k..])
    decreases k
  {
    if k > 0 {
      var tail := lines[1..];
      assert forall i :: 0 <= i < k - 1 ==> tail[i] == lines[i + 1];
      KeptRun(tail, k - 1);
      assert Kept(lines) == [Strip(lines[0])] + Kept(tail);
      assert tail[k - 1..] == lines[k..];
      StripAllCons(lines, k);
    } else {
      assert lines[0..] == lines;
    }
  }

  /** The runs hold exactly the non-blank lines, in document order. */
  lemma {:induction false} RunsKeepEveryLine(lines: seq<string>)
    ensures Flatten(Runs(lines)) == Kept(lines)
    decreases |lines|
  {
    if lines != [] {
      if IsBlank(lines[0]) {
        RunsKeepEveryLine(lines[1..]);
      } else {
        var k := RunLength(lines);
        RunsKeepEveryLine(lines[k..]);
        KeptRun(lines, k);
        assert Runs(lines) == [StripAll(lines[..k])] + Runs(lines[k..]);
      }
    }
  }

  lemma {:induction false} JoinFlatten(runs: seq<seq<string>>)
    requires forall j :: 0 <= j < |runs| ==> runs[j] != []
    ensures JoinWith(" ", JoinRuns(runs)) == JoinWith(" ", Flatten(runs))
    decreases |runs|
  {
    if |runs| > 1 {
      JoinFlatten(runs[1..]);
      assert Flatten(runs[1..]) != [] by {
        assert Flatten(runs[1..]) == runs[1] + Flatten(runs[2..]);
      }
      JoinAppend(" ", runs[0], Flatten(runs[1..]));
      assert JoinRuns(runs)[1..] == JoinRuns(runs[1..]);
    } else if |runs| == 1 {
      assert runs[1..] == [];
      assert Flatten(runs) == runs[0] + [] == runs[0];
      assert JoinRuns(runs) == [JoinWith(" ", runs[0])];
    }
  }

  /** Nothing is lost or reordered: the paragraphs joined by spaces are the
      non-blank lines, stripped, joined by spaces. */
  lemma ContentPreserved(lines: seq<string>)
    ensures JoinWith(" ", Paragraphs(lines)) == JoinWith(" ", Kept(lines))
  {
    RunsWellFormed(lines);
    JoinFlatten(Runs(lines));
    RunsKeepEveryLine(lines);
  }

  /** A paragraph written on its own line is read back as that paragraph. */
  lemma OneLineParagraph(p: string, end: string)
    requires p != "" && Trimmed(p) && '\n' !in p
    requires end == "" || end == "\n"
    ensures Paragraphs([p + end]) == [p]
  {
    if end == "" {
      assert p + end == p;
      StripTrimmed(p);
    } else {
      StripLineEnd(p);
    }
    SingleRun([p + end]);
    assert StripAll([p + end]) == [p];
    assert JoinWith(" ", [p]) == p;
  }

  /** A paragraph followed by a blank line is read as that paragraph, then
      whatever follows. */
  lemma ParagraphThenBlank(p: string, rest: string)
    requires p != "" && Trimmed(p) && '\n' !in p
    ensures Paragraphs(ReadLines(p + "\n\n" + rest)) == [p] + Paragraphs(ReadLines(rest))
  {
    ReadLinesBlankAfter(p, rest);
    var tail := ReadLines(rest);
    assert [p + "\n", "\n"] + tail == [p + "\n"] + ["\n"] + tail;
    assert IsBlank("\n") by {
      assert IsSpace('\n');
      assert AllSpace("\n");
    }
    SplitAtBlank([p + "\n"], "\n", tail);
    OneLineParagraph(p, "\n");
  }

  /** Paragraphs written out with a blank line between them are read back
      unchanged, provided each is non-empty, stripped and one line. */
  lemma {:induction false} RoundTrip(ps: seq<string>)
    requires forall j :: 0 <= j < |ps| ==> ps[j] != "" && Trimmed(ps[j]) && '\n' !in ps[j]
    ensures Paragraphs(ReadLines(JoinWith("\n\n", ps))) == ps
    decreases |ps|
  {
    if |ps| == 0 {
      assert ReadLines("") == [];
      assert Paragraphs([]) == [];
    } else if |ps| == 1 {
      ReadLinesSingle(ps[0]);
      assert ps[0] + "" == ps[0];
      OneLineParagraph(ps[0], "");
    } else {
      assert JoinWith("\n\n", ps) == ps[0] + "\n\n" + JoinWith("\n\n", ps[1..]);
      ParagraphThenBlank(ps[0], JoinWith("\n\n", ps[1..]));
      RoundTrip(ps[1..]);
    }
  }
}
