/**
 * Python's string primitives that the parsers and the line classifier rely on:
 * `str.isspace`, `str.strip()`, `str.split()` (no argument: runs of whitespace),
 * and the splitting of a text file into the lines that `readline`/`readlines`
 * return (each line keeps its trailing "\n"; the last may lack it).
 */
module Text {

  /** Python's `str.isspace` for one character: the characters `str.split()` and `str.strip()` treat as whitespace. */
  predicate IsSpace(c: char) {
    || ('\t' <= c <= '\r')              // tab, line feed, vertical tab, form feed, carriage return
    || ('\U{1C}' <= c <= ' ')           // file/group/record/unit separators and space
    || c == '\U{85}' || c == '\U{A0}' || c == '\U{1680}'
    || ('\U{2000}' <= c <= '\U{200A}')
    || c == '\U{2028}' || c == '\U{2029}' || c == '\U{202F}' || c == '\U{205F}' || c == '\U{3000}'
  }

  /** A non-empty string without whitespace: what `str.split()` can return as one field. */
  predicate IsToken(s: string) {
    |s| > 0 && forall i | 0 <= i < |s| :: !IsSpace(s[i])
  }

  predicate AllSpace(s: string) {
    forall i | 0 <= i < |s| :: IsSpace(s[i])
  }

  /** `s.lstrip()`: the suffix left after dropping the leading whitespace. */
  function TrimStart(s: string): (r: string)
    ensures |r| <= |s|
    ensures r == [] || !IsSpace(r[0])
  {
    if s != [] && IsSpace(s[0]) then TrimStart(s[1..]) else s
  }

  /** `s.rstrip()`: the prefix left after dropping the trailing whitespace. */
  function TrimEnd(s: string): (r: string)
    ensures |r| <= |s|
  {
    if s != [] && IsSpace(s[|s| - 1]) then TrimEnd(s[..|s| - 1]) else s
  }

  /** `s.strip()` */
  function Strip(s: string): string {
    TrimEnd(TrimStart(s))
  }

  /** Length of the longest prefix of `s` that holds no whitespace. */
  function WordEnd(s: string): (n: nat)
    ensures n <= |s|
    ensures s != [] && !IsSpace(s[0]) ==> n > 0
  {
    if s == [] || IsSpace(s[0]) then 0 else 1 + WordEnd(s[1..])
  }

  /** `s.split()`: the maximal runs of non-whitespace characters, in order. */
  function Split(s: string): seq<string>
    decreases |s|
  {
    var t := TrimStart(s);
    if t == [] then []
    else
      var n := WordEnd(t);
      [t[..n]] + Split(t[n..])
  }

  /** `lstrip` drops a run of whitespace from the front and nothing else. */
  lemma {:induction false} TrimStartSpec(s: string)
    ensures var r := TrimStart(s); r == s[|s| - |r|..] && AllSpace(s[..|s| - |r|])
    decreases |s|
  {
    if s != [] && IsSpace(s[0]) {
      TrimStartSpec(s[1..]);
      var r := TrimStart(s);
      assert s[1..][|s| - 1 - |r|..] == s[|s| - |r|..];
      assert forall i | 1 <= i < |s| - |r| :: s[i] == s[1..][i - 1];
    }
  }

  /** `rstrip` drops a run of whitespace from the back and nothing else, and leaves no whitespace at the end. */
  lemma {:induction false} TrimEndSpec(s: string)
    ensures var r := TrimEnd(s); r == s[..|r|] && AllSpace(s[|r|..]) && (r == [] || !IsSpace(r[|r| - 1]))
    decreases |s|
  {
    if s != [] && IsSpace(s[|s| - 1]) {
      var p := s[..|s| - 1];
      TrimEndSpec(p);
      var r := TrimEnd(s);
      assert p[..|r|] == s[..|r|];
      assert forall i | 0 <= i < |s| - |r| ::
        s[|r|..][i] == if i == |s| - |r| - 1 then s[|s| - 1] else p[|r|..][i];
    }
  }

  /** `WordEnd` stops at the first whitespace character. */
  lemma {:induction false} WordEndSpec(s: string)
    ensures forall i | 0 <= i < WordEnd(s) :: !IsSpace(s[i])
    ensures WordEnd(s) == |s| || IsSpace(s[WordEnd(s)])
    decreases |s|
  {
    if s != [] && !IsSpace(s[0]) {
      WordEndSpec(s[1..]);
      assert forall i | 1 <= i < WordEnd(s) :: s[i] == s[1..][i - 1];
    }
  }

  /** Every field `split()` returns is a non-empty run without whitespace. */
  lemma {:induction false} SplitTokens(s: string)
    ensures forall k | 0 <= k < |Split(s)| :: IsToken(Split(s)[k])
    decreases |s|
  {
    var t := TrimStart(s);
    if t != [] {
      var n := WordEnd(t);
      WordEndSpec(t);
      SplitTokens(t[n..]);
      assert forall i | 0 <= i < n :: t[..n][i] == t[i];
      var f := Split(s);
      assert f == [t[..n]] + Split(t[n..]);
      assert forall k | 1 <= k < |f| :: f[k] == Split(t[n..])[k - 1];
    }
  }

  /** `" ".join(words)` */
  function Unwords(words: seq<string>): string {
    if words == [] then ""
    else if |words| == 1 then words[0]
    else words[0] + " " + Unwords(words[1..])
  }

  /** Number of characters of the first line of `text`, its "\n" included. */
  function LineLength(text: string): (n: nat)
    requires text != []
    ensures 1 <= n <= |text|
    ensures forall i | 0 <= i < n - 1 :: text[i] != '\n'
    ensures n < |text| ==> text[n - 1] == '\n'
  {
    if text[0] == '\n' || |text| == 1 then 1 else 1 + LineLength(text[1..])
  }

  /** The lines a text-mode file yields to `readline`/`readlines`: each ends with its "\n", the last one possibly without. */
  function SplitLines(text: string): (lines: seq<string>)
    ensures forall k | 0 <= k < |lines| :: lines[k] != ""
    decreases |text|
  {
    if text == [] then []
    else
      var n := LineLength(text);
      [text[..n]] + SplitLines(text[n..])
  }

  /** The text `writelines` produces from a list of strings. */
  function JoinLines(lines: seq<string>): string {
    if lines == [] then "" else lines[0] + JoinLines(lines[1..])
  }

  /** A line as `readline` returns it from the middle of a file: exactly one "\n", at its end. */
  predicate IsTerminatedLine(l: string) {
    |l| > 0 && l[|l| - 1] == '\n' && forall i | 0 <= i < |l| - 1 :: l[i] != '\n'
  }

  /** Reading a text back as lines loses nothing. */
  lemma {:induction false} JoinSplitLines(text: string)
    ensures JoinLines(SplitLines(text)) == text
    decreases |text|
  {
    if text != [] {
      var n := LineLength(text);
      JoinSplitLines(text[n..]);
      assert text == text[..n] + text[n..];
    }
  }

  /** Writing terminated lines and reading them back yields the same lines. */
  lemma {:induction false} SplitJoinLines(lines: seq<string>)
    requires forall k | 0 <= k < |lines| :: IsTerminatedLine(lines[k])
    ensures SplitLines(JoinLines(lines)) == lines
  {
    if lines != [] {
      var l, text := lines[0], JoinLines(lines);
      assert text == l + JoinLines(lines[1..]);
      LineLengthOfTerminated(l, JoinLines(lines[1..]));
      assert text[..|l|] == l;
      assert text[|l|..] == JoinLines(lines[1..]);
      SplitJoinLines(lines[1..]);
    }
  }

  lemma {:induction false} LineLengthOfTerminated(l: string, rest: string)
    requires IsTerminatedLine(l)
    ensures LineLength(l + rest) == |l|
    decreases |l|
  {
    var text := l + rest;
    if text[0] != '\n' && |text| != 1 {
      assert l[1..] + rest == text[1..];
      LineLengthOfTerminated(l[1..], rest);
    }
  }

  /** Leading whitespace does not change the fields. */
  lemma SplitLeadingSpace(c: char, s: string)
    requires IsSpace(c)
    ensures Split([c] + s) == Split(s)
  {
    assert ([c] + s)[1..] == s;
    assert TrimStart([c] + s) == TrimStart(s);
  }

  lemma {:induction false} WordEndOfToken(w: string, tail: string)
    requires IsToken(w)
    requires tail == [] || IsSpace(tail[0])
    ensures WordEnd(w + tail) == |w|
    decreases |w|
  {
    if |w| > 1 {
      assert (w + tail)[1..] == w[1..] + tail;
      WordEndOfToken(w[1..], tail);
    } else {
      assert (w + tail)[1..] == tail;
    }
  }

  /** A token followed by whitespace (or nothing) is the first field. */
  lemma SplitToken(w: string, tail: string)
    requires IsToken(w)
    requires tail == [] || IsSpace(tail[0])
    ensures Split(w + tail) == [w] + Split(tail)
  {
    var s := w + tail;
    assert TrimStart(s) == s;
    WordEndOfToken(w, tail);
    assert s[..|w|] == w;
    assert s[|w|..] == tail;
  }

  /** A text of whitespace only has no fields. */
  lemma SplitAllSpace(s: string)
    requires AllSpace(s)
    ensures Split(s) == []
  {
    TrimStartAllSpace(s);
  }

  lemma {:induction false} TrimStartAllSpace(s: string)
    requires AllSpace(s)
    ensures TrimStart(s) == []
  {
    if s != [] {
      TrimStartAllSpace(s[1..]);
    }
  }

  /** `" ".join(words) + "\n"` splits back into `words`. */
  lemma {:induction false} SplitUnwords(words: seq<string>)
    requires forall k | 0 <= k < |words| :: IsToken(words[k])
    ensures Split(Unwords(words) + "\n") == words
  {
    if words == [] {
      SplitAllSpace("\n");
    } else if |words| == 1 {
      SplitToken(words[0], "\n");
      SplitAllSpace("\n");
    } else {
      var rest := Unwords(words[1..]) + "\n";
      SplitUnwords(words[1..]);
      UnwordsCons(words, rest);
      SplitToken(words[0], [' '] + rest);
      SplitLeadingSpace(' ', rest);
      assert [words[0]] + words[1..] == words;
    }
  }

  lemma UnwordsCons(words: seq<string>, rest: string)
    requires |words| > 1 && rest == Unwords(words[1..]) + "\n"
    ensures Unwords(words) + "\n" == words[0] + ([' '] + rest)
  {
  }

  /** Tokens joined by spaces, plus "\n", form one terminated line. */
  lemma UnwordsTerminated(words: seq<string>)
    requires forall k | 0 <= k < |words| :: IsToken(words[k])
    ensures IsTerminatedLine(Unwords(words) + "\n")
  {
    UnwordsHasNoNewline(words);
  }

  lemma {:induction false} UnwordsHasNoNewline(words: seq<string>)
    requires forall k | 0 <= k < |words| :: IsToken(words[k])
    ensures forall i | 0 <= i < |Unwords(words)| :: Unwords(words)[i] != '\n'
  {
    if |words| > 1 {
      UnwordsHasNoNewline(words[1..]);
      var u := Unwords(words);
      assert u == words[0] + " " + Unwords(words[1..]);
      forall i | 0 <= i < |u| ensures u[i] != '\n' {
        if i < |words[0]| {
          assert u[i] == words[0][i];
        } else if i > |words[0]| {
          assert u[i] == Unwords(words[1..])[i - |words[0]| - 1];
        }
      }
    } else if |words| == 1 {
      assert forall i | 0 <= i < |words[0]| :: !IsSpace(words[0][i]);
    }
  }

  /** Stripping twice is stripping once. */
  lemma StripIdempotent(s: string)
    ensures Strip(Strip(s)) == Strip(s)
  {
    var u := TrimStart(s);
    var t := Strip(s);
    TrimEndSpec(u);
    if t != [] {
      assert !IsSpace(t[0]) by {
        assert t == u[..|t|];
      }
      assert TrimStart(t) == t;
      TrimEndSpec(t);
    } else {
      assert TrimStart(t) == t;
    }
  }

  /** A character that is not whitespace survives stripping. */
  lemma StripKeepsNonSpace(s: string, c: char)
    requires !IsSpace(c)
    ensures c in Strip(s) <==> c in s
  {
    var u := TrimStart(s);
    var t := TrimEnd(u);
    var d := |s| - |u|;
    TrimStartSpec(s);
    TrimEndSpec(u);
    assert forall m | 0 <= m < d :: IsSpace(s[m]) by {
      assert forall m | 0 <= m < d :: s[..d][m] == s[m];
    }
    assert forall m | |t| <= m < |u| :: IsSpace(u[m]) by {
      assert forall m | |t| <= m < |u| :: u[|t|..][m - |t|] == u[m];
    }
    if c in s {
      var i :| 0 <= i < |s| && s[i] == c;
      assert d <= i;
      assert u[i - d] == c;
      assert t[i - d] == c;
    }
    if c in t {
      var j :| 0 <= j < |t| && t[j] == c;
      assert u[j] == c;
      assert s[j + d] == c;
    }
  }

  lemma Unwords2(a: string, b: string)
    ensures Unwords([a, b]) == a + " " + b
  {
    assert [a, b][1..] == [b];
  }

  /** A line of two tokens separated by one space: it splits into the two and is one terminated line. */
  lemma TwoWordLine(a: string, b: string)
    requires IsToken(a) && IsToken(b)
    ensures Split(a + " " + b + "\n") == [a, b]
    ensures IsTerminatedLine(a + " " + b + "\n")
  {
    Unwords2(a, b);
    SplitUnwords([a, b]);
    UnwordsTerminated([a, b]);
  }

  /** Every string of `ls` is one terminated line of text. */
  ghost predicate AllTerminated(ls: seq<string>) {
    forall k | 0 <= k < |ls| :: IsTerminatedLine(ls[k])
  }

  lemma AllTerminatedConcat(a: seq<string>, b: seq<string>)
    requires AllTerminated(a) && AllTerminated(b)
    ensures AllTerminated(a + b)
  {
    forall k | 0 <= k < |a + b| ensures IsTerminatedLine((a + b)[k]) {
      if k >= |a| {
        assert (a + b)[k] == b[k - |a|];
      }
    }
  }
}
