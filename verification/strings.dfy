/**
  Text helpers shared by the configuration lookup and the output paths:
  Python's argument-less `str.split()`, `readlines()` over a file's text,
  and decimal rendering of integers as `std::to_string` produces it,
  together with the parsers that invert them.
*/
module Strings {
  import opened Wrappers

  // ---------------------------------------------------------------------
  // Whitespace splitting (Python str.split() with no separator)

  /** The characters Python's `str.isspace()` accepts. */
  predicate IsSpace(c: char)
  {
    c == ' ' || c == '\t' || c == '\n' || c == '\r' || c == '\U{000B}' || c == '\U{000C}'
    || ('\U{001C}' <= c <= '\U{001F}') || c == '\U{0085}' || c == '\U{00A0}' || c == '\U{1680}'
    || ('\U{2000}' <= c <= '\U{200A}') || c == '\U{2028}' || c == '\U{2029}' || c == '\U{202F}'
    || c == '\U{205F}' || c == '\U{3000}'
  }

  /** A token of `str.split()`: non-empty and free of whitespace. */
  predicate IsWord(t: string)
  {
    |t| > 0 && forall i :: 0 <= i < |t| ==> !IsSpace(t[i])
  }

  /** Length of the whitespace-free prefix of `s`. */
  function WordEnd(s: string): (n: nat)
    ensures n <= |s|
    ensures forall i :: 0 <= i < n ==> !IsSpace(s[i])
    ensures n < |s| ==> IsSpace(s[n])
  {
    if |s| == 0 || IsSpace(s[0]) then 0 else 1 + WordEnd(s[1..])
  }

  /**
    `s.split()`: the maximal runs of non-whitespace characters, in order;
    leading, trailing and repeated whitespace produce no empty tokens.
  */
  function Split(s: string): (tokens: seq<string>)
    ensures forall i :: 0 <= i < |tokens| ==> IsWord(tokens[i])
    decreases |s|
  {
    if |s| == 0 then []
    else if IsSpace(s[0]) then Split(s[1..])
    else
      var n := WordEnd(s);
      [s[..n]] + Split(s[n..])
  }

  /** `s` with every whitespace character removed. */
  function RemoveSpaces(s: string): string
  {
    if |s| == 0 then ""
    else (if IsSpace(s[0]) then "" else [s[0]]) + RemoveSpaces(s[1..])
  }

  function Concat(parts: seq<string>): string
  {
    if |parts| == 0 then "" else parts[0] + Concat(parts[1..])
  }

  /** `sep.join(parts)`. */
  function Join(parts: seq<string>, sep: string): string
  {
    if |parts| == 0 then ""
    else if |parts| == 1 then parts[0]
    else parts[0] + sep + Join(parts[1..], sep)
  }

  lemma {:induction false} RemoveSpacesAppend(a: string, b: string)
    ensures RemoveSpaces(a + b) == RemoveSpaces(a) + RemoveSpaces(b)
    decreases |a|
  {
    if |a| > 0 {
      assert (a + b)[1..] == a[1..] + b;
      assert (a + b)[0] == a[0];
      RemoveSpacesAppend(a[1..], b);
      var head := if IsSpace(a[0]) then "" else [a[0]];
      assert RemoveSpaces(a + b) == head + (RemoveSpaces(a[1..]) + RemoveSpaces(b));
      assert RemoveSpaces(a) == head + RemoveSpaces(a[1..]);
      assert head + (RemoveSpaces(a[1..]) + RemoveSpaces(b)) == (head + RemoveSpaces(a[1..])) + RemoveSpaces(b);
    } else {
      assert a + b == b;
    }
  }

  lemma {:induction false} RemoveSpacesWord(w: string)
    requires forall i :: 0 <= i < |w| ==> !IsSpace(w[i])
    ensures RemoveSpaces(w) == w
    decreases |w|
  {
    if |w| > 0 {
      RemoveSpacesWord(w[1..]);
      assert [w[0]] + w[1..] == w;
    }
  }

  /** The tokens, glued together, are exactly the non-whitespace characters of `s`, in order. */
  lemma {:induction false} SplitKeepsEveryCharacter(s: string)
    ensures Concat(Split(s)) == RemoveSpaces(s)
    decreases |s|
  {
    if |s| > 0 {
      if IsSpace(s[0]) {
        SplitKeepsEveryCharacter(s[1..]);
      } else {
        var n := WordEnd(s);
        SplitKeepsEveryCharacter(s[n..]);
        assert s == s[..n] + s[n..];
        RemoveSpacesAppend(s[..n], s[n..]);
        RemoveSpacesWord(s[..n]);
        assert Split(s)[1..] == Split(s[n..]);
      }
    }
  }

  lemma {:induction false} WordEndOfWord(w: string, rest: string)
    requires IsWord(w) && (|rest| == 0 || IsSpace(rest[0]))
    ensures WordEnd(w + rest) == |w|
    decreases |w|
  {
    assert (w + rest)[1..] == w[1..] + rest;
    if |w| > 1 {
      WordEndOfWord(w[1..], rest);
    } else {
      assert w[1..] + rest == rest;
    }
  }

  /** A word followed by whitespace (or nothing) is split off as one token. */
  lemma SplitWordThen(w: string, rest: string)
    requires IsWord(w) && (|rest| == 0 || IsSpace(rest[0]))
    ensures Split(w + rest) == [w] + Split(rest)
  {
    WordEndOfWord(w, rest);
    assert (w + rest)[..|w|] == w;
    assert (w + rest)[|w|..] == rest;
  }

  /** Joining words with single spaces and splitting again gives the words back. */
  lemma {:induction false} SplitJoin(words: seq<string>)
    requires forall i :: 0 <= i < |words| ==> IsWord(words[i])
    ensures Split(Join(words, " ")) == words
    decreases |words|
  {
    if |words| == 1 {
      SplitWordThen(words[0], "");
      assert words[0] + "" == words[0];
    } else if |words| > 1 {
      var rest := " " + Join(words[1..], " ");
      assert Join(words, " ") == words[0] + rest;
      SplitWordThen(words[0], rest);
      assert rest[1..] == Join(words[1..], " ");
      SplitJoin(words[1..]);
      assert words == [words[0]] + words[1..];
    }
  }

  // ---------------------------------------------------------------------
  // readlines(): the lines of a text, each keeping its '\n' terminator

  /** Length of the first line of `s`, including its newline if there is one. */
  function LineEnd(s: string): (n: nat)
    requires |s| > 0
    ensures 0 < n <= |s|
    ensures forall i :: 0 <= i < n - 1 ==> s[i] != '\n'
    ensures n < |s| ==> s[n - 1] == '\n'
  {
    if s[0] == '\n' || |s| == 1 then 1 else 1 + LineEnd(s[1..])
  }

  /** `file.readlines()`: never yields an empty line. */
  function ReadLines(s: string): (lines: seq<string>)
    ensures forall i :: 0 <= i < |lines| ==> |lines[i]| > 0
    decreases |s|
  {
    if |s| == 0 then []
    else
      var n := LineEnd(s);
      [s[..n]] + ReadLines(s[n..])
  }

  /** Reading the lines loses nothing: they concatenate back to the text. */
  lemma {:induction false} ReadLinesConcat(s: string)
    ensures Concat(ReadLines(s)) == s
    decreases |s|
  {
    if |s| > 0 {
      var n := LineEnd(s);
      ReadLinesConcat(s[n..]);
      assert ReadLines(s)[1..] == ReadLines(s[n..]);
      assert s == s[..n] + s[n..];
    }
  }

  /** A newline-terminated line without inner newlines is read as one line. */
  lemma {:induction false} LineEndOfLine(line: string, rest: string)
    requires |line| > 0 && line[|line| - 1] == '\n'
    requires forall i :: 0 <= i < |line| - 1 ==> line[i] != '\n'
    ensures LineEnd(line + rest) == |line|
    decreases |line|
  {
    if |line| > 1 {
      assert (line + rest)[1..] == line[1..] + rest;
      LineEndOfLine(line[1..], rest);
    }
  }

  /** Text written one terminated line at a time is read back line by line. */
  lemma {:induction false} ReadLinesOfLines(lines: seq<string>)
    requires forall i :: 0 <= i < |lines| ==> |lines[i]| > 0 && lines[i][|lines[i]| - 1] == '\n'
    requires forall i, j :: 0 <= i < |lines| && 0 <= j < |lines[i]| - 1 ==> lines[i][j] != '\n'
    ensures ReadLines(Concat(lines)) == lines
    decreases |lines|
  {
    if |lines| > 0 {
      var s := Concat(lines);
      LineEndOfLine(lines[0], Concat(lines[1..]));
      assert s[..|lines[0]|] == lines[0];
      assert s[|lines[0]|..] == Concat(lines[1..]);
      ReadLinesOfLines(lines[1..]);
      assert lines == [lines[0]] + lines[1..];
    }
  }

  // ---------------------------------------------------------------------
  // Decimal integers (std::to_string) and their parser

  predicate IsDigit(c: char)
  {
    '0' <= c <= '9'
  }

  predicate AllDigits(s: string)
  {
    forall i :: 0 <= i < |s| ==> IsDigit(s[i])
  }

  function DigitChar(d: nat): (c: char)
    requires d < 10
    ensures IsDigit(c)
  {
    ['0', '1', '2', '3', '4', '5', '6', '7', '8', '9'][d]
  }

  function DigitValue(c: char): nat
    requires IsDigit(c)
  {
    (c as int - '0' as int) as nat
  }

  lemma DigitRoundTrip(d: nat)
    requires d < 10
    ensures DigitValue(DigitChar(d)) == d
  {
  }

  /** Decimal digits of `n`, most significant first, without leading zeros. */
  function NatString(n: nat): (s: string)
    ensures |s| > 0 && AllDigits(s)
  {
    if n < 10 then [DigitChar(n)] else NatString(n / 10) + [DigitChar(n % 10)]
  }

  /** `std::to_string` of an int: a '-' sign for negatives, then the digits. */
  function IntString(i: int): (s: string)
    ensures |s| > 0
    ensures forall k :: 0 <= k < |s| ==> IsDigit(s[k]) || s[k] == '-'
  {
    if i < 0 then "-" + NatString(-i) else NatString(i)
  }

  function DigitsValue(s: string): nat
    requires AllDigits(s)
  {
    if |s| == 0 then 0 else 10 * DigitsValue(s[..|s| - 1]) + DigitValue(s[|s| - 1])
  }

  /** Reads an optional '-' followed by at least one decimal digit. */
  function ParseInt(s: string): Option<int>
  {
    if |s| > 1 && s[0] == '-' && AllDigits(s[1..]) then Some(-(DigitsValue(s[1..]) as int))
    else if |s| > 0 && AllDigits(s) then Some(DigitsValue(s))
    else None
  }

  lemma {:induction false} NatStringValue(n: nat)
    ensures DigitsValue(NatString(n)) == n
  {
    var s := NatString(n);
    if n < 10 {
      DigitRoundTrip(n);
    } else {
      NatStringValue(n / 10);
      assert s[..|s| - 1] == NatString(n / 10);
      DigitRoundTrip(n % 10);
    }
  }

  /** Parsing a rendered integer gives the integer back. */
  lemma IntStringRoundTrip(i: int)
    ensures ParseInt(IntString(i)) == Some(i)
  {
    var s := IntString(i);
    if i < 0 {
      var digits := NatString(-i);
      assert s == "-" + digits;
      assert s[1..] == digits;
      NatStringValue(-i);
      assert ParseInt(s) == Some(-(DigitsValue(digits) as int));
    } else {
      assert IsDigit(s[0]);
      NatStringValue(i);
      assert ParseInt(s) == Some(DigitsValue(s));
    }
  }

  /** Distinct integers render differently. */
  lemma IntStringInjective(a: int, b: int)
    requires IntString(a) == IntString(b)
    ensures a == b
  {
    IntStringRoundTrip(a);
    IntStringRoundTrip(b);
  }

  // ---------------------------------------------------------------------
  // Cutting a string at the first occurrence of a delimiter

  /** The text before and after the first `c` in `s`, if `c` occurs. */
  function CutAt(s: string, c: char): Option<(string, string)>
  {
    if |s| == 0 then None
    else if s[0] == c then Some(("", s[1..]))
    else match CutAt(s[1..], c)
      case None => None
      case Some(parts) => Some(([s[0]] + parts.0, parts.1))
  }

  /** Cutting `a + [c] + b` at `c` recovers `a` and `b` when `a` has no `c`. */
  lemma {:induction false} CutAtJoined(a: string, c: char, b: string)
    requires forall i :: 0 <= i < |a| ==> a[i] != c
    ensures CutAt(a + [c] + b, c) == Some((a, b))
    decreases |a|
  {
    var s := a + [c] + b;
    if |a| == 0 {
      assert s == [c] + b;
    } else {
      assert s[1..] == a[1..] + [c] + b;
      CutAtJoined(a[1..], c, b);
      assert [a[0]] + a[1..] == a;
    }
  }
}
