/** The string operations the assistant relies on: Python's `str.strip`,
    `str.join`, `str.split` and the line splitting of `readlines`. */
module Text {

  /** Python's `str.isspace` for one character: the ASCII controls TAB to CR,
      the information separators, space, NEL, NBSP and the Unicode space
      separators, line and paragraph separators. */
  predicate IsSpace(c: char) {
    || c == ' '
    || ('\t' <= c <= '\r')
    || ('\U{1C}' <= c <= '\U{1F}')
    || c == '\U{85}'
    || c == '\U{A0}'
    || c == '\U{1680}'
    || ('\U{2000}' <= c <= '\U{200A}')
    || c == '\U{2028}'
    || c == '\U{2029}'
    || c == '\U{202F}'
    || c == '\U{205F}'
    || c == '\U{3000}'
  }

  predicate AllSpace(s: string) {
    forall i :: 0 <= i < |s| ==> IsSpace(s[i])
  }

  /** A string with no whitespace at either end, as `strip` leaves it. */
  predicate Trimmed(s: string) {
    s == "" || (!IsSpace(s[0]) && !IsSpace(s[|s| - 1]))
  }

  /** Python's `str.strip()` with no argument: whitespace is removed from
      both ends, one character at a time. */
  function Strip(s: string): (r: string)
    ensures Trimmed(r)
    ensures r == "" <==> AllSpace(s)
    decreases |s|
  {
    if s != "" && IsSpace(s[0]) then
      var r := Strip(s[1..]);
      assert AllSpace(s) <==> AllSpace(s[1..]) by {
        assert forall i :: 1 <= i < |s| ==> s[i] == s[1..][i - 1];
      }
      r
    else if s != "" && IsSpace(s[|s| - 1]) then
      var r := Strip(s[..|s| - 1]);
      assert AllSpace(s) <==> AllSpace(s[..|s| - 1]) by {
        assert forall i :: 0 <= i < |s| - 1 ==> s[i] == s[..|s| - 1][i];
      }
      r
    else
      assert s != "" ==> !AllSpace(s);
      s
  }

  /** `strip` removes whitespace from the ends and nothing else: its result
      is a slice of the input, and what lies before and after the slice is
      all whitespace. With `Trimmed`, this determines the result. */
  lemma {:induction false} StripSlice(s: string)
    ensures exists a, b :: 0 <= a <= b <= |s| && s[a..b] == Strip(s) && AllSpace(s[..a]) && AllSpace(s[b..])
    decreases |s|
  {
    if s != "" && IsSpace(s[0]) {
      var t := s[1..];
      StripSlice(t);
      var a, b :| 0 <= a <= b <= |t| && t[a..b] == Strip(t) && AllSpace(t[..a]) && AllSpace(t[b..]);
      SliceAfterFirst(s, a, b);
    } else if s != "" && IsSpace(s[|s| - 1]) {
      var t := s[..|s| - 1];
      StripSlice(t);
      var a, b :| 0 <= a <= b <= |t| && t[a..b] == Strip(t) && AllSpace(t[..a]) && AllSpace(t[b..]);
      SliceBeforeLast(s, a, b);
    } else {
      assert s[0..|s|] == s && s[..0] == "" && s[|s|..] == "";
    }
  }

  /** A slice of `s[1..]` framed by whitespace is a slice of `s` framed by
      whitespace, when `s` starts with whitespace. */
  lemma SliceAfterFirst(s: string, a: nat, b: nat)
    requires s != "" && IsSpace(s[0]) && a <= b <= |s| - 1
    requires AllSpace(s[1..][..a]) && AllSpace(s[1..][b..])
    ensures s[a + 1..b + 1] == s[1..][a..b]
    ensures AllSpace(s[..a + 1]) && AllSpace(s[b + 1..])
  {
    var t := s[1..];
    var front, back := s[..a + 1], s[b + 1..];
    assert forall i :: 0 <= i < b - a ==> s[a + 1..b + 1][i] == s[a + 1 + i] == t[a..b][i];
    assert s[a + 1..b + 1] == t[a..b];
    assert forall i :: 0 <= i < |back| ==> back[i] == s[b + 1 + i] == t[b..][i];
    assert back == t[b..];
    forall i | 0 <= i < |front| ensures IsSpace(front[i]) {
      if i > 0 {
        assert front[i] == t[..a][i - 1];
      }
    }
  }

  /** A slice of `s[..|s| - 1]` framed by whitespace is a slice of `s`
      framed by whitespace, when `s` ends with whitespace. */
  lemma SliceBeforeLast(s: string, a: nat, b: nat)
    requires s != "" && IsSpace(s[|s| - 1]) && a <= b <= |s| - 1
    requires AllSpace(s[..|s| - 1][..a]) && AllSpace(s[..|s| - 1][b..])
    ensures s[a..b] == s[..|s| - 1][a..b]
    ensures AllSpace(s[..a]) && AllSpace(s[b..])
  {
    var t := s[..|s| - 1];
    assert s[..a] == t[..a];
    var back := s[b..];
    forall i | 0 <= i < |back| ensures IsSpace(back[i]) {
      if i < |s| - 1 - b {
        assert back[i] == t[b..][i];
      }
    }
  }

  /** A string that is already stripped is left alone. */
  lemma StripTrimmed(s: string)
    requires Trimmed(s)
    ensures Strip(s) == s
  {
  }

  /** The newline that ends a line read by `readlines` is stripped with the
      rest of the trailing whitespace. */
  lemma StripLineEnd(p: string)
    requires p != "" && Trimmed(p)
    ensures Strip(p + "\n") == p
  {
    var s := p + "\n";
    assert s[0] == p[0];
    assert s[..|s| - 1] == p;
    assert IsSpace('\n');
  }

  /** A stripped line has no newline when the line had none before its last
      character. */
  lemma StripKeepsOneLine(line: string)
    requires OneLine(line)
    ensures '\n' !in Strip(line)
  {
    StripSlice(line);
    var a, b :| 0 <= a <= b <= |line| && line[a..b] == Strip(line);
    TrimmedSliceAvoidsNewline(line, a, b);
  }

  /** A slice with no whitespace at its ends has no newline when the string
      had none before its last character. */
  lemma TrimmedSliceAvoidsNewline(line: string, a: nat, b: nat)
    requires line != "" && a <= b <= |line| && '\n' !in line[..|line| - 1]
    requires Trimmed(line[a..b])
    ensures '\n' !in line[a..b]
  {
    var r := line[a..b];
    assert forall j :: 0 <= j < |line| - 1 ==> line[j] == line[..|line| - 1][j];
    forall k | 0 <= k < |r| ensures r[k] != '\n' {
      assert r[k] == line[a + k];
      if a + k == |line| - 1 {
        assert k == |r| - 1;
        assert IsSpace('\n');
      }
    }
  }

  /** Python's `sep.join(xs)`. */
  function JoinWith(sep: string, xs: seq<string>): string
    decreases |xs|
  {
    if |xs| == 0 then ""
    else if |xs| == 1 then xs[0]
    else xs[0] + sep + JoinWith(sep, xs[1..])
  }

  /** Joining two non-empty lists puts one separator between the halves. */
  lemma {:induction false} JoinAppend(sep: string, xs: seq<string>, ys: seq<string>)
    requires xs != [] && ys != []
    ensures JoinWith(sep, xs + ys) == JoinWith(sep, xs) + sep + JoinWith(sep, ys)
    decreases |xs|
  {
    if |xs| == 1 {
      assert (xs + ys)[1..] == ys;
    } else {
      assert (xs + ys)[1..] == xs[1..] + ys;
      JoinAppend(sep, xs[1..], ys);
    }
  }

  /** A join of non-empty stripped strings is non-empty, and it is stripped as
      long as the separator does not start or end it. */
  lemma {:induction false} JoinTrimmed(sep: string, xs: seq<string>)
    requires xs != []
    requires forall i :: 0 <= i < |xs| ==> xs[i] != "" && Trimmed(xs[i])
    ensures JoinWith(sep, xs) != "" && Trimmed(JoinWith(sep, xs))
    decreases |xs|
  {
    if |xs| > 1 {
      var rest := JoinWith(sep, xs[1..]);
      JoinTrimmed(sep, xs[1..]);
      var j := xs[0] + sep + rest;
      assert j[0] == xs[0][0];
      assert j[|j| - 1] == rest[|rest| - 1];
    }
  }

  /** A character that is neither in the separator nor in any part is not
      in the join. */
  lemma {:induction false} JoinAvoids(c: char, sep: string, xs: seq<string>)
    requires c !in sep
    requires forall i :: 0 <= i < |xs| ==> c !in xs[i]
    ensures c !in JoinWith(sep, xs)
    decreases |xs|
  {
    if |xs| > 1 {
      JoinAvoids(c, sep, xs[1..]);
    }
  }

  /** Index of the first occurrence of `c` in `s`. */
  function IndexOf(s: string, c: char): (i: nat)
    requires c in s
    ensures i < |s| && s[i] == c && c !in s[..i]
    decreases |s|
  {
    if s[0] == c then 0
    else
      var i := 1 + IndexOf(s[1..], c);
      assert s[..i] == [s[0]] + s[1..][..i - 1];
      i
  }

  /** Python's `s.split(c)` for a one-character separator: the pieces
      between consecutive occurrences of `c`; the empty string gives `[""]`. */
  function Split(s: string, c: char): (parts: seq<string>)
    ensures parts != []
    ensures forall k :: 0 <= k < |parts| ==> c !in parts[k]
    decreases |s|
  {
    if c !in s then [s]
    else
      var i := IndexOf(s, c);
      [s[..i]] + Split(s[i + 1..], c)
  }

  /** Splitting undoes joining, when no part contains the separator. */
  lemma {:induction false} SplitJoin(c: char, xs: seq<string>)
    requires xs != []
    requires forall k :: 0 <= k < |xs| ==> c !in xs[k]
    ensures Split(JoinWith([c], xs), c) == xs
    decreases |xs|
  {
    if |xs| > 1 {
      var rest := JoinWith([c], xs[1..]);
      var s := xs[0] + [c] + rest;
      assert s[|xs[0]|] == c;
      assert s[..|xs[0]|] == xs[0];
      assert IndexOf(s, c) == |xs[0]| by {
        var i := IndexOf(s, c);
        assert forall j :: 0 <= j < |xs[0]| ==> s[j] == xs[0][j];
        assert forall j :: 0 <= j < i ==> s[j] == s[..i][j];
      }
      assert s[|xs[0]| + 1..] == rest;
      SplitJoin(c, xs[1..]);
    }
  }

  /** Concatenation of a list of strings. */
  function Concat(xs: seq<string>): string
    decreases |xs|
  {
    if xs == [] then "" else xs[0] + Concat(xs[1..])
  }

  /** Length of the first line of `text`, its newline included. */
  function LineLength(text: string): (n: nat)
    requires text != ""
    ensures 1 <= n <= |text|
    ensures '\n' !in text[..n - 1]
    ensures n < |text| ==> text[n - 1] == '\n'
    decreases |text|
  {
    if text[0] == '\n' || |text| == 1 then 1
    else
      var n := 1 + LineLength(text[1..]);
      assert text[..n - 1] == [text[0]] + text[1..][..n - 2];
      n
  }

  /** A line as `readlines` yields it: non-empty, with no newline before its
      last character. */
  predicate OneLine(line: string) {
    line != "" && '\n' !in line[..|line| - 1]
  }

  /** A line that ends with a newline. */
  predicate Ended(line: string) {
    line != "" && line[|line| - 1] == '\n'
  }

  /** `readlines` on a text stream: the text cut after every newline. Every
      line is non-empty, ends with its only newline (the last line may have
      none) and the lines concatenate back to the text. */
  function ReadLines(text: string): (lines: seq<string>)
    ensures Concat(lines) == text
    ensures forall k :: 0 <= k < |lines| ==> OneLine(lines[k])
    ensures forall k :: 0 <= k < |lines| - 1 ==> Ended(lines[k])
    decreases |text|
  {
    if text == "" then []
    else
      var n := LineLength(text);
      var first := text[..n];
      var rest := ReadLines(text[n..]);
      assert OneLine(first) by {
        assert first[..n - 1] == text[..n - 1];
      }
      assert rest != [] ==> Ended(first);
      assert text == first + text[n..];
      LinesCons(first, rest);
      [first] + rest
  }

  /** Putting a line in front of a list of lines. */
  lemma LinesCons(first: string, rest: seq<string>)
    ensures Concat([first] + rest) == first + Concat(rest)
    ensures forall k :: 1 <= k < |rest| + 1 ==> ([first] + rest)[k] == rest[k - 1]
  {
    assert ([first] + rest)[1..] == rest;
  }

  /** A line that ends in its only newline is read as one line, then the
      rest. */
  lemma ReadLinesCons(line: string, rest: string)
    requires line != "" && line[|line| - 1] == '\n' && '\n' !in line[..|line| - 1]
    ensures ReadLines(line + rest) == [line] + ReadLines(rest)
  {
    var text := line + rest;
    var n := LineLength(text);
    assert forall j :: 0 <= j < n - 1 ==> text[j] == text[..n - 1][j];
    assert forall j :: 0 <= j < |line| - 1 ==> text[j] == line[..|line| - 1][j];
    assert text[|line| - 1] == '\n';
    assert text[..n] == line;
    assert text[n..] == rest;
  }

  /** A line followed by an empty line is read as those two lines, then the
      rest. */
  lemma ReadLinesBlankAfter(p: string, rest: string)
    requires '\n' !in p
    ensures ReadLines(p + "\n\n" + rest) == [p + "\n", "\n"] + ReadLines(rest)
  {
    var first := p + "\n";
    assert first[..|first| - 1] == p;
    assert p + "\n\n" + rest == first + ("\n" + rest);
    ReadLinesCons(first, "\n" + rest);
    ReadLinesCons("\n", rest);
  }

  /** Text without a newline is one line. */
  lemma ReadLinesSingle(p: string)
    requires p != "" && '\n' !in p
    ensures ReadLines(p) == [p]
  {
    var n := LineLength(p);
    assert forall j :: 0 <= j < |p| ==> p[j] != '\n';
    assert p[..n] == p;
  }
}
