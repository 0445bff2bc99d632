/**
 * A document's text and the lines the engine works on. Every feature
 * splits the text with `/\r?\n/`: a line feed ends a line, and a carriage
 * return directly in front of it is dropped with it.
 */
module Document {
  predicate NoLineFeed(s: string) {
    forall k :: 0 <= k < |s| ==> s[k] != '\n'
  }

  /** The index of the first line feed of `s`, or |s| when there is none. */
  function LineFeedIndex(s: string): (k: nat)
    ensures k <= |s|
    ensures k < |s| ==> s[k] == '\n'
    ensures NoLineFeed(s[..k])
  {
    if s == [] || s[0] == '\n' then 0
    else
      var k := 1 + LineFeedIndex(s[1..]);
      assert s[..k] == [s[0]] + s[1..][..k - 1];
      k
  }

  /** The line ending at index `k`, without the carriage return that precedes the line feed there. */
  function DropReturn(s: string): (r: string)
    ensures |r| <= |s| && r == s[..|r|]
    ensures r == s || (s == r + "\r")
  {
    if |s| > 0 && s[|s| - 1] == '\r' then s[..|s| - 1] else s
  }

  /** `text.split(/\r?\n/)`. */
  function SplitLines(text: string): (lines: seq<string>)
    ensures |lines| >= 1
    ensures forall k :: 0 <= k < |lines| ==> NoLineFeed(lines[k])
    decreases |text|
  {
    var k := LineFeedIndex(text);
    if k == |text| then [text]
    else [DropReturn(text[..k])] + SplitLines(text[k + 1..])
  }

  /** The lines separated by line feeds: the inverse of `SplitLines` on text without carriage returns. */
  function JoinLines(lines: seq<string>): (text: string)
    requires |lines| >= 1
  {
    if |lines| == 1 then lines[0] else lines[0] + "\n" + JoinLines(lines[1..])
  }

  predicate NoReturnBeforeFeed(line: string) {
    |line| == 0 || line[|line| - 1] != '\r'
  }

  /** Joining lines and splitting the result gives the lines back. */
  lemma {:induction false} SplitJoin(lines: seq<string>)
    requires |lines| >= 1
    requires forall k :: 0 <= k < |lines| ==> NoLineFeed(lines[k]) && NoReturnBeforeFeed(lines[k])
    ensures SplitLines(JoinLines(lines)) == lines
    decreases |lines|
  {
    if |lines| == 1 {
      LineFeedIndexNone(lines[0]);
    } else {
      SplitJoin(lines[1..]);
      SplitFirst(lines[0], JoinLines(lines[1..]));
      assert lines == [lines[0]] + lines[1..];
    }
  }

  /** A first line without a line feed or a final carriage return is split off as it is. */
  lemma SplitFirst(first: string, rest: string)
    requires NoLineFeed(first) && NoReturnBeforeFeed(first)
    ensures SplitLines(first + "\n" + rest) == [first] + SplitLines(rest)
  {
    var text := first + "\n" + rest;
    assert text == first + ("\n" + rest);
    LineFeedIndexAfter(first, "\n" + rest);
    assert text[..|first|] == first;
    assert text[|first| + 1..] == rest;
  }

  /** With no carriage return in the text, splitting and joining gives the text back. */
  lemma {:induction false} JoinSplit(text: string)
    requires forall k :: 0 <= k < |text| ==> text[k] != '\r'
    ensures JoinLines(SplitLines(text)) == text
    decreases |text|
  {
    var k := LineFeedIndex(text);
    if k < |text| {
      var line := text[..k];
      assert DropReturn(line) == line;
      JoinSplit(text[k + 1..]);
      assert SplitLines(text)[1..] == SplitLines(text[k + 1..]);
      assert text == line + "\n" + text[k + 1..];
    }
  }

  lemma {:induction false} LineFeedIndexNone(s: string)
    requires NoLineFeed(s)
    ensures LineFeedIndex(s) == |s|
    decreases |s|
  {
    if s != [] {
      LineFeedIndexNone(s[1..]);
    }
  }

  lemma {:induction false} LineFeedIndexAfter(s: string, t: string)
    requires NoLineFeed(s)
    requires |t| > 0 && t[0] == '\n'
    ensures LineFeedIndex(s + t) == |s|
    decreases |s|
  {
    if s != [] {
      assert (s + t)[1..] == s[1..] + t;
      LineFeedIndexAfter(s[1..], t);
    }
  }
}
