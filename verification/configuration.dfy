/**
  The parameter lookup of the visualisation tool (`catch_parameter`): the
  configuration file is read line by line; comment lines (first character
  '#') and lines without tokens are skipped; the first line whose first
  whitespace token equals the key decides the answer, which is the third
  token of that line.  A file with no such line gives Python's None.
*/
module Configuration {
  import opened Strings

  /** Outcome of a lookup: the value, None, or the IndexError Python raises. */
  datatype Lookup = Found(value: string) | NotFound | IndexError

  /** A line the lookup reads past without deciding anything. */
  predicate Passes(line: string, target: string)
  {
    |line| > 0 && (line[0] == '#' || |Split(line)| == 0 || Split(line)[0] != target)
  }

  /**
    What a line that does not pass decides: `line[0]` of an empty string
    raises, and so does `splitted[2]` on a key line with fewer than three
    tokens.
  */
  function Outcome(line: string): Lookup
  {
    if |line| == 0 then IndexError
    else
      var tokens := Split(line);
      if |tokens| >= 3 then Found(tokens[2]) else IndexError
  }

  /** The loop of `catch_parameter` over already-read lines. */
  function CatchInLines(lines: seq<string>, target: string): (r: Lookup)
    ensures r.Found? ==> IsWord(r.value)
  {
    if |lines| == 0 then NotFound
    else if Passes(lines[0], target) then CatchInLines(lines[1..], target)
    else Outcome(lines[0])
  }

  /**
    `catch_parameter(filename, target)` on the file's text: a found value
    is a single token, and None comes back exactly when every line of the
    file passes.
  */
  function CatchParameter(text: string, target: string): (r: Lookup)
    ensures r.Found? ==> IsWord(r.value)
    ensures var lines := ReadLines(text);
            r == NotFound <==> forall i :: 0 <= i < |lines| ==> Passes(lines[i], target)
  {
    var lines := ReadLines(text);
    NotFoundIffAllPass(lines, target);
    CatchInLines(lines, target)
  }

  /** A comment line never takes part in the lookup. */
  lemma CommentIgnored(line: string, rest: seq<string>, target: string)
    requires |line| > 0 && line[0] == '#'
    ensures CatchInLines([line] + rest, target) == CatchInLines(rest, target)
  {
    assert ([line] + rest)[1..] == rest;
  }

  /** A non-empty line of whitespace only never takes part in the lookup. */
  lemma BlankIgnored(line: string, rest: seq<string>, target: string)
    requires |line| > 0 && |Split(line)| == 0
    ensures CatchInLines([line] + rest, target) == CatchInLines(rest, target)
  {
    assert ([line] + rest)[1..] == rest;
  }

  /**
    First match wins: the lines after the first deciding line are never
    consulted, and lines before it only pass.
  */
  lemma {:induction false} FirstMatchWins(a: seq<string>, b: seq<string>, target: string)
    ensures CatchInLines(a + b, target) ==
              if CatchInLines(a, target) == NotFound then CatchInLines(b, target) else CatchInLines(a, target)
    decreases |a|
  {
    if |a| == 0 {
      assert a + b == b;
    } else {
      assert (a + b)[0] == a[0];
      assert (a + b)[1..] == a[1..] + b;
      if Passes(a[0], target) {
        FirstMatchWins(a[1..], b, target);
      }
    }
  }

  /** The answer is NotFound exactly when every line passes. */
  lemma {:induction false} NotFoundIffAllPass(lines: seq<string>, target: string)
    ensures CatchInLines(lines, target) == NotFound <==>
              forall i :: 0 <= i < |lines| ==> Passes(lines[i], target)
    decreases |lines|
  {
    if |lines| > 0 {
      NotFoundIffAllPass(lines[1..], target);
      assert forall i :: 1 <= i < |lines| ==> lines[i] == lines[1..][i - 1];
    }
  }

  /** The first line that does not pass decides the answer. */
  lemma {:induction false} FirstDecidingLine(lines: seq<string>, target: string, k: int)
    requires 0 <= k < |lines| && !Passes(lines[k], target)
    requires forall i :: 0 <= i < k ==> Passes(lines[i], target)
    ensures CatchInLines(lines, target) == Outcome(lines[k])
    decreases k
  {
    if k > 0 {
      assert forall i :: 0 <= i < k - 1 ==> lines[1..][i] == lines[i + 1];
      FirstDecidingLine(lines[1..], target, k - 1);
    }
  }

  /**
    A key line written as `key = value` (the configuration files' layout)
    is found, and the value returned is the token after the '='.
  */
  lemma KeyLineFound(key: string, value: string, before: seq<string>, after: seq<string>)
    requires IsWord(key) && IsWord(value) && key[0] != '#'
    requires forall i :: 0 <= i < |before| ==> Passes(before[i], key)
    ensures CatchInLines(before + [Join([key, "=", value], " ")] + after, key) == Found(value)
  {
    var line := Join([key, "=", value], " ");
    SplitJoin([key, "=", value]);
    assert line == key + " " + Join([ "=", value], " ");
    assert line[0] == key[0];
    var lines := before + [line] + after;
    assert lines[|before|] == line;
    assert forall i :: 0 <= i < |before| ==> lines[i] == before[i];
    FirstDecidingLine(lines, key, |before|);
  }

  /** The lines `readlines()` produces are never empty, so the IndexError of `line[0]` cannot arise. */
  lemma FileErrorsAreShortKeyLines(text: string, target: string)
    requires CatchParameter(text, target) == IndexError
    ensures exists i :: 0 <= i < |ReadLines(text)| && !Passes(ReadLines(text)[i], target)
              && |Split(ReadLines(text)[i])| < 3
  {
    var lines := ReadLines(text);
    NotFoundIffAllPass(lines, target);
    var k := FirstFailing(lines, target);
    FirstDecidingLine(lines, target, k);
  }

  /** Index of the first line that does not pass (one exists). */
  function FirstFailing(lines: seq<string>, target: string): (k: int)
    requires exists i :: 0 <= i < |lines| && !Passes(lines[i], target)
    ensures 0 <= k < |lines| && !Passes(lines[k], target)
    ensures forall i :: 0 <= i < k ==> Passes(lines[i], target)
  {
    if !Passes(lines[0], target) then 0
    else
      var i :| 0 <= i < |lines| && !Passes(lines[i], target);
      assert lines[1..][i - 1] == lines[i];
      1 + FirstFailing(lines[1..], target)
  }

  /** A newline-terminated `key = value` line after passing lines is found. */
  lemma KeyLineTerminatedFound(key: string, value: string, before: seq<string>, after: seq<string>)
    requires IsWord(key) && IsWord(value) && key[0] != '#'
    requires forall i :: 0 <= i < |before| ==> Passes(before[i], key)
    ensures CatchInLines(before + [Join([key, "=", value], " ") + "\n"] + after, key) == Found(value)
  {
    var bare := Join([key, "=", value], " ");
    var line := bare + "\n";
    SplitJoin([key, "=", value]);
    SplitAppendSpace(bare, '\n');
    assert bare == key + " " + Join(["=", value], " ");
    assert line[0] == key[0];
    var lines := before + [line] + after;
    assert lines[|before|] == line;
    assert forall i :: 0 <= i < |before| ==> lines[i] == before[i];
    FirstDecidingLine(lines, key, |before|);
  }

  /** Trailing whitespace adds no token. */
  lemma {:induction false} SplitAppendSpace(s: string, c: char)
    requires IsSpace(c)
    ensures Split(s + [c]) == Split(s)
    decreases |s|
  {
    if |s| == 0 {
      assert Split([c]) == Split([c][1..]);
    } else if IsSpace(s[0]) {
      assert (s + [c])[1..] == s[1..] + [c];
      SplitAppendSpace(s[1..], c);
    } else {
      var n := WordEnd(s);
      WordEndAppend(s, c);
      assert (s + [c])[..n] == s[..n];
      assert (s + [c])[n..] == s[n..] + [c];
      SplitAppendSpace(s[n..], c);
    }
  }

  lemma {:induction false} WordEndAppend(s: string, c: char)
    requires IsSpace(c)
    ensures WordEnd(s + [c]) == WordEnd(s)
    decreases |s|
  {
    if |s| > 0 && !IsSpace(s[0]) {
      assert (s + [c])[1..] == s[1..] + [c];
      WordEndAppend(s[1..], c);
    }
  }
}
