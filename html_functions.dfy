/**
 * The text pipeline of `toJsx`: a missing text becomes a fixed notice,
 * every `<think>…</think>` block is removed (the regular expression
 * `/<think>[\s\S]*?<\/think>/g`: shortest match, across lines), and the
 * result is split into lines at `\r\n`, `\r` or `\n`. Each line is then
 * rendered in its own element; the rendering is not modelled.
 */
module HtmlFunctions {
  import opened Wrappers
  import opened Strings

  const NoMessage := "No Message In Response"
  const OpenTag := "<think>"
  const CloseTag := "</think>"

  /** Whether `t` occurs in `s` at index `i`. */
  predicate OccursAt(s: string, t: string, i: int) {
    0 <= i && i + |t| <= |s| && s[i..i + |t|] == t
  }

  /** The first occurrence of `t` in `s` at or after `k`, or -1. */
  function IndexOfFrom(s: string, t: string, k: nat): (r: int)
    requires k <= |s|
    ensures r == -1 || (k <= r && OccursAt(s, t, r))
    ensures forall i :: k <= i && (r == -1 || i < r) ==> !OccursAt(s, t, i)
    decreases |s| - k
  {
    if k + |t| > |s| then -1
    else if s[k..k + |t|] == t then k
    else IndexOfFrom(s, t, k + 1)
  }

  /**
   * `s.replace(/<think>[\s\S]*?<\/think>/g, '')`, scanning from the left:
   * at a `<think>` that has a `</think>` somewhere after it, drop
   * everything up to the end of the first such `</think>`; otherwise keep
   * the character and go on.
   */
  function RemoveThink(s: string): string
    decreases |s|
  {
    if s == [] then []
    else if StartsWith(s, OpenTag) && IndexOfFrom(s, CloseTag, |OpenTag|) != -1 then
      RemoveThink(s[IndexOfFrom(s, CloseTag, |OpenTag|) + |CloseTag|..])
    else [s[0]] + RemoveThink(s[1..])
  }

  /** An occurrence in a suffix is an occurrence in the whole string. */
  lemma OccursInSuffix(s: string, t: string, i: int)
    requires s != [] && OccursAt(s[1..], t, i)
    ensures OccursAt(s, t, i + 1)
  {
    assert s[i + 1..i + 1 + |t|] == s[1..][i..i + |t|];
  }

  /** Without any `</think>`, nothing is removed: an unclosed `<think>` stays in place. */
  lemma {:induction false} RemoveThinkUnclosed(s: string)
    requires forall i :: !OccursAt(s, CloseTag, i)
    ensures RemoveThink(s) == s
    decreases |s|
  {
    if s != [] {
      if StartsWith(s, OpenTag) {
        var r := IndexOfFrom(s, CloseTag, |OpenTag|);
        assert r == -1;
      }
      forall i ensures !OccursAt(s[1..], CloseTag, i) {
        if OccursAt(s[1..], CloseTag, i) {
          OccursInSuffix(s, CloseTag, i);
        }
      }
      RemoveThinkUnclosed(s[1..]);
      assert [s[0]] + s[1..] == s;
    }
  }

  /** A string without '<' holds no tag. */
  lemma NoAngleNoTag(s: string, t: string, i: int)
    requires '<' !in s && t != [] && t[0] == '<'
    ensures !OccursAt(s, t, i)
  {
  }

  /**
   * Text in front of which no `<think>` starts is kept verbatim, in front
   * of the rest: a block can only be removed from where its tag begins.
   */
  lemma {:induction false} RemoveThinkKeepsOpenFreePrefix(a: string, s: string)
    requires forall i :: 0 <= i < |a| ==> !OccursAt(a + s, OpenTag, i)
    ensures RemoveThink(a + s) == a + RemoveThink(s)
    decreases |a|
  {
    if a != [] {
      OpenFreeShift(a, s);
      RemoveThinkKeepsOpenFreePrefix(a[1..], s);
      RemoveThinkKeepsChar(a, s, RemoveThink(s));
    } else {
      assert a + s == s;
    }
  }

  /** Where no `<think>` starts, the first character is kept in front of what the rest becomes. */
  lemma RemoveThinkKeepsChar(a: string, s: string, rest: string)
    requires a != [] && !OccursAt(a + s, OpenTag, 0)
    requires RemoveThink(a[1..] + s) == a[1..] + rest
    ensures RemoveThink(a + s) == a + rest
  {
    var t := a + s;
    assert !StartsWith(t, OpenTag);
    assert t[1..] == a[1..] + s;
    assert [a[0]] + (a[1..] + rest) == a + rest;
  }

  /** Dropping the first character of the prefix keeps it free of `<think>`. */
  lemma OpenFreeShift(a: string, s: string)
    requires a != [] && forall i :: 0 <= i < |a| ==> !OccursAt(a + s, OpenTag, i)
    ensures forall i :: 0 <= i < |a[1..]| ==> !OccursAt(a[1..] + s, OpenTag, i)
  {
    var t := a + s;
    assert t[1..] == a[1..] + s;
    forall i | 0 <= i < |a[1..]| ensures !OccursAt(a[1..] + s, OpenTag, i) {
      if OccursAt(a[1..] + s, OpenTag, i) {
        OccursInSuffix(t, OpenTag, i);
      }
    }
  }

  /** Text in which no `<think>` starts is left alone, whatever `</think>` it holds. */
  lemma RemoveThinkOpenFree(s: string)
    requires forall i :: 0 <= i < |s| ==> !OccursAt(s, OpenTag, i)
    ensures RemoveThink(s) == s
  {
    assert s + [] == s;
    RemoveThinkKeepsOpenFreePrefix(s, []);
  }

  /** Text before the first '<' is kept verbatim, in front of the rest. */
  lemma RemoveThinkKeepsPlainPrefix(a: string, s: string)
    requires '<' !in a
    ensures RemoveThink(a + s) == a + RemoveThink(s)
  {
    forall i | 0 <= i < |a| ensures !OccursAt(a + s, OpenTag, i) {
      assert (a + s)[i] == a[i];
    }
    RemoveThinkKeepsOpenFreePrefix(a, s);
  }

  /** Text without '<' is left alone. */
  lemma RemoveThinkPlain(s: string)
    requires '<' !in s
    ensures RemoveThink(s) == s
  {
    forall i | 0 <= i < |s| ensures !OccursAt(s, OpenTag, i) {
      NoAngleNoTag(s, OpenTag, i);
    }
    RemoveThinkOpenFree(s);
  }

  /** The first `</think>` in `body + "</think>"` is the one at its end: the body closes no block itself. */
  predicate ClosesAtEnd(body: string) {
    forall i :: 0 <= i < |body| ==> !OccursAt(body + CloseTag, CloseTag, i)
  }

  /** A body without '<' holds no closing tag. */
  lemma AngleFreeClosesAtEnd(body: string)
    requires '<' !in body
    ensures ClosesAtEnd(body)
  {
    forall i | 0 <= i < |body| ensures !OccursAt(body + CloseTag, CloseTag, i) {
      assert (body + CloseTag)[i] == body[i];
    }
  }

  /**
   * The shortest match: a think block is removed up to the first
   * `</think>` after its `<think>`, and only that far; what follows is
   * processed on its own. The body may hold anything else, other tags and
   * `<think>` included.
   */
  lemma {:induction false} RemoveThinkBlock(body: string, rest: string)
    requires ClosesAtEnd(body)
    ensures RemoveThink(OpenTag + body + CloseTag + rest) == RemoveThink(rest)
  {
    var s := OpenTag + body + CloseTag + rest;
    var n := |OpenTag|;
    var close := n + |body|;
    assert s[..n] == OpenTag;
    assert OccursAt(s, CloseTag, close) by {
      assert s[close..close + |CloseTag|] == CloseTag;
    }
    var t := body + CloseTag;
    assert s == OpenTag + t + rest;
    forall i | n <= i < close ensures !OccursAt(s, CloseTag, i) {
      assert !OccursAt(t, CloseTag, i - n);
      assert s[i..i + |CloseTag|] == t[i - n..i - n + |CloseTag|];
    }
    var r := IndexOfFrom(s, CloseTag, n);
    assert r == close;
    assert s[close + |CloseTag|..] == rest;
  }

  // ---------------------------------------------------------------------
  // Line splitting

  predicate IsBreak(c: char) {
    c == '\r' || c == '\n'
  }

  /** The first '\r' or '\n', or |s|. */
  function IndexOfBreak(s: string): (i: nat)
    ensures i <= |s|
    ensures i < |s| ==> IsBreak(s[i])
    ensures forall j :: 0 <= j < i ==> !IsBreak(s[j])
  {
    if s == [] then 0
    else if IsBreak(s[0]) then 0
    else 1 + IndexOfBreak(s[1..])
  }

  /** How many characters the break at `i` takes: two for "\r\n", one otherwise. */
  function BreakWidth(s: string, i: nat): nat
    requires i < |s|
  {
    if s[i] == '\r' && i + 1 < |s| && s[i + 1] == '\n' then 2 else 1
  }

  /** No line break inside. */
  predicate IsLine(s: string) {
    '\r' !in s && '\n' !in s
  }

  /** `s.split(/\r\n|\r|\n/)`. */
  function SplitLines(s: string): (lines: seq<string>)
    ensures |lines| >= 1
    ensures forall k :: 0 <= k < |lines| ==> IsLine(lines[k])
    decreases |s|
  {
    var i := IndexOfBreak(s);
    if i == |s| then [s]
    else [s[..i]] + SplitLines(s[i + BreakWidth(s, i)..])
  }

  /** The text with every "\r\n" and every lone "\r" written as "\n". */
  function NormalizeBreaks(s: string): string
    decreases |s|
  {
    if s == [] then []
    else if s[0] == '\r' && |s| > 1 && s[1] == '\n' then "\n" + NormalizeBreaks(s[2..])
    else if s[0] == '\r' then "\n" + NormalizeBreaks(s[1..])
    else [s[0]] + NormalizeBreaks(s[1..])
  }

  /** A text without breaks is one line. */
  lemma SplitLinesOfLine(s: string)
    requires IsLine(s)
    ensures SplitLines(s) == [s]
  {
  }

  /** Splitting `a + "\n" + rest`, where `a` has no break, cuts exactly after `a`. */
  lemma SplitLinesAfterLine(a: string, rest: string)
    requires IsLine(a)
    ensures SplitLines(a + "\n" + rest) == [a] + SplitLines(rest)
  {
    var s := a + "\n" + rest;
    assert forall j :: 0 <= j < |a| ==> s[j] == a[j];
    assert s[|a|] == '\n';
    assert IndexOfBreak(s) == |a|;
    assert s[..|a|] == a && s[|a| + 1..] == rest;
  }

  /** Splitting lines joined with "\n" gives the lines back. */
  lemma {:induction false} SplitLinesJoin(lines: seq<string>)
    requires lines != []
    requires forall k :: 0 <= k < |lines| ==> IsLine(lines[k])
    ensures SplitLines(Join(lines, "\n")) == lines
  {
    if |lines| == 1 {
      SplitLinesOfLine(lines[0]);
    } else {
      SplitLinesAfterLine(lines[0], Join(lines[1..], "\n"));
      SplitLinesJoin(lines[1..]);
    }
  }

  /** Text without breaks is left alone. */
  lemma {:induction false} NormalizeLine(a: string, s: string)
    requires IsLine(a)
    ensures NormalizeBreaks(a + s) == a + NormalizeBreaks(s)
    decreases |a|
  {
    if a != [] {
      var t := a + s;
      assert t[0] == a[0] && t[1..] == a[1..] + s;
      NormalizeLine(a[1..], s);
      assert [a[0]] + a[1..] == a;
    } else {
      assert a + s == s;
    }
  }

  /** A break, of either width, normalises to one "\n". */
  lemma NormalizeBreak(s: string, i: nat)
    requires i < |s| && IsBreak(s[i])
    ensures NormalizeBreaks(s[i..]) == "\n" + NormalizeBreaks(s[i + BreakWidth(s, i)..])
  {
    var t := s[i..];
    assert t[0] == s[i];
    if BreakWidth(s, i) == 2 {
      assert t[1] == s[i + 1] && t[2..] == s[i + 2..];
    } else {
      assert t[1..] == s[i + 1..];
    }
  }

  /** Joining the lines with "\n" gives the text with its breaks normalised. */
  lemma {:induction false} JoinSplitLines(s: string)
    ensures Join(SplitLines(s), "\n") == NormalizeBreaks(s)
    decreases |s|
  {
    var i := IndexOfBreak(s);
    if i == |s| {
      NormalizeLine(s, []);
      assert s + [] == s;
    } else {
      JoinSplitLines(s[i + BreakWidth(s, i)..]);
      JoinSplitLinesStep(s, i);
    }
  }

  /** One line and its break: if the rest joins back to its normal form, so does the whole. */
  lemma JoinSplitLinesStep(s: string, i: nat)
    requires i == IndexOfBreak(s) && i < |s|
    requires Join(SplitLines(s[i + BreakWidth(s, i)..]), "\n") == NormalizeBreaks(s[i + BreakWidth(s, i)..])
    ensures Join(SplitLines(s), "\n") == NormalizeBreaks(s)
  {
    var a, rest := s[..i], s[i + BreakWidth(s, i)..];
    SplitAtBreak(s, i);
    JoinCons(a, SplitLines(rest), "\n");
    NormalizeAtBreak(s, i);
    Assoc(a, "\n", NormalizeBreaks(rest));
  }

  lemma SplitAtBreak(s: string, i: nat)
    requires i == IndexOfBreak(s) && i < |s|
    ensures SplitLines(s) == [s[..i]] + SplitLines(s[i + BreakWidth(s, i)..])
  {
  }

  /** Normalising up to the first break keeps the line and writes the break as one "\n". */
  lemma NormalizeAtBreak(s: string, i: nat)
    requires i == IndexOfBreak(s) && i < |s|
    ensures NormalizeBreaks(s) == s[..i] + ("\n" + NormalizeBreaks(s[i + BreakWidth(s, i)..]))
  {
    var a := s[..i];
    assert IsLine(a) by {
      forall j | 0 <= j < |a| ensures !IsBreak(a[j]) {
        assert a[j] == s[j];
      }
    }
    SliceJoin(s, i);
    NormalizeLine(a, s[i..]);
    NormalizeBreak(s, i);
  }

  lemma SliceJoin(s: string, i: nat)
    requires i <= |s|
    ensures s[..i] + s[i..] == s
  {
  }

  /** The number of '\n' in a string. */
  function CountNewlines(s: string): nat {
    if s == [] then 0 else CountNewlines(s[..|s| - 1]) + (if s[|s| - 1] == '\n' then 1 else 0)
  }

  lemma {:induction false} CountNewlinesAppend(a: string, b: string)
    ensures CountNewlines(a + b) == CountNewlines(a) + CountNewlines(b)
    decreases |b|
  {
    if b != [] {
      assert (a + b)[..|a + b| - 1] == a + b[..|b| - 1];
      CountNewlinesAppend(a, b[..|b| - 1]);
    } else {
      assert a + b == a;
    }
  }

  lemma {:induction false} CountNewlinesOfLine(s: string)
    requires IsLine(s)
    ensures CountNewlines(s) == 0
  {
    if s != [] {
      assert !IsBreak(s[|s| - 1]);
      CountNewlinesOfLine(s[..|s| - 1]);
    }
  }

  /** Joining n lines with "\n" puts exactly n - 1 newlines in. */
  lemma {:induction false} CountNewlinesOfJoin(lines: seq<string>)
    requires lines != []
    requires forall k :: 0 <= k < |lines| ==> IsLine(lines[k])
    ensures CountNewlines(Join(lines, "\n")) == |lines| - 1
  {
    CountNewlinesOfLine(lines[0]);
    if |lines| > 1 {
      CountNewlinesOfJoin(lines[1..]);
      CountNewlinesAppend(lines[0], "\n");
      CountNewlinesAppend(lines[0] + "\n", Join(lines[1..], "\n"));
      assert CountNewlines("\n") == CountNewlines([]) + 1;
    }
  }

  /** There is one more line than there are line breaks. */
  lemma SplitLinesCount(s: string)
    ensures |SplitLines(s)| == CountNewlines(NormalizeBreaks(s)) + 1
  {
    JoinSplitLines(s);
    CountNewlinesOfJoin(SplitLines(s));
  }

  // ---------------------------------------------------------------------
  // The pipeline

  /** The lines `toJsx(text)` renders, one element each. */
  function DisplayedLines(text: Option<string>): (lines: seq<string>)
    ensures |lines| >= 1
  {
    SplitLines(RemoveThink(text.GetOr(NoMessage)))
  }

  /** Plain text on one line is shown as it is. */
  lemma DisplayedPlainLine(s: string)
    requires '<' !in s && IsLine(s)
    ensures DisplayedLines(Some(s)) == [s]
  {
    RemoveThinkPlain(s);
    SplitLinesOfLine(s);
  }

  /** A missing text shows the notice, on one line. */
  lemma DisplayedMissing()
    ensures DisplayedLines(None) == [NoMessage]
  {
    assert '<' !in NoMessage && IsLine(NoMessage);
    DisplayedPlainLine(NoMessage);
  }

  lemma AppendEmpty(a: string)
    ensures a + [] == a
  {
  }

  /** A think block between two pieces of plain text is cut out, and only it. */
  lemma ThinkBetween(pre: string, body: string, post: string)
    requires '<' !in pre && '<' !in body && '<' !in post
    ensures RemoveThink(pre + OpenTag + body + CloseTag + post) == pre + post
  {
    Regroup(pre, OpenTag, body, CloseTag, post);
    RemoveThinkPlain(post);
    AngleFreeClosesAtEnd(body);
    RemoveThinkBlock(body, post);
    RemoveThinkKeepsPlainPrefix(pre, OpenTag + body + CloseTag + post);
  }

  /** A think block at the end of the text is cut out. */
  lemma ThinkAtEnd(pre: string, body: string)
    requires '<' !in pre && '<' !in body
    ensures RemoveThink(pre + OpenTag + body + CloseTag) == pre
  {
    ThinkBetween(pre, body, []);
    AppendEmpty(pre + OpenTag + body + CloseTag);
    AppendEmpty(pre);
  }

  /** Two think blocks are cut out separately: the text between them survives. */
  lemma TwoThinksBetween(pre: string, body1: string, mid: string, body2: string)
    requires '<' !in pre && '<' !in body1 && '<' !in mid && '<' !in body2
    ensures RemoveThink(pre + OpenTag + body1 + CloseTag + mid + OpenTag + body2 + CloseTag) == pre + mid
  {
    var second := mid + OpenTag + body2 + CloseTag;
    Regroup(pre + OpenTag + body1 + CloseTag, mid, OpenTag, body2, CloseTag);
    Regroup(pre, OpenTag, body1, CloseTag, second);
    ThinkAtEnd(mid, body2);
    AngleFreeClosesAtEnd(body1);
    RemoveThinkBlock(body1, second);
    RemoveThinkKeepsPlainPrefix(pre, OpenTag + body1 + CloseTag + second);
  }

  /** Joining three lines. */
  lemma JoinThree(a: string, b: string, c: string, sep: string)
    ensures Join([a, b, c], sep) == a + sep + (b + sep + c)
  {
    assert [b, c][1..] == [c];
    assert Join([b, c], sep) == b + sep + c;
    assert [a, b, c][1..] == [b, c];
  }

  /** A think block spanning lines goes, and the line breaks on either side of it stay. */
  lemma {:induction false} ThinkAcrossLinesBetween(a: string, body: string, b: string)
    requires '<' !in a && '<' !in body && '<' !in b && IsLine(a) && IsLine(b)
    ensures DisplayedLines(Some(a + "\n" + OpenTag + body + CloseTag + "\n" + b)) == [a, "", b]
  {
    var nl := "\n";
    var pre, post := a + nl, nl + b;
    var text := a + nl + OpenTag + body + CloseTag + nl + b;
    assert text == pre + OpenTag + body + CloseTag + post by {
      Assoc(a + nl + OpenTag + body + CloseTag, nl, b);
    }
    ThinkBetween(pre, body, post);
    assert Join([a, [], b], nl) == pre + post by {
      JoinThree(a, [], b, nl);
      assert [] + nl + b == post;
      Assoc(a, nl, post);
    }
    assert IsLine([]);
    SplitLinesJoin([a, [], b]);
  }

  /** `toJsx` test: plain text is one line, as it is. */
  lemma ExamplePlain()
    ensures DisplayedLines(Some("Hello, world!")) == ["Hello, world!"]
  {
    assert '<' !in "Hello, world!" && IsLine("Hello, world!");
    DisplayedPlainLine("Hello, world!");
  }

  /** `toJsx` test: a think block inside a line is removed. */
  lemma ExampleThinkInLine()
    ensures RemoveThink("Hello, " + "<think>" + "this should be removed" + "</think>" + " world!")
            == "Hello, " + " world!"
  {
    assert '<' !in "Hello, " && '<' !in "this should be removed" && '<' !in " world!";
    ThinkBetween("Hello, ", "this should be removed", " world!");
  }

  /** `toJsx` test: several think blocks are removed, each ending at its own closing tag. */
  lemma ExampleTwoThinks()
    ensures RemoveThink("Hello, " + "<think>" + "remove this" + "</think>" + " world! "
                        + "<think>" + "and this too" + "</think>")
            == "Hello, " + " world! "
  {
    assert '<' !in "Hello, " && '<' !in "remove this" && '<' !in " world! " && '<' !in "and this too";
    TwoThinksBetween("Hello, ", "remove this", " world! ", "and this too");
  }

  /** `toJsx` test: a think block across lines is removed, and the lines around it are kept. */
  lemma ExampleThinkAcrossLines()
    ensures DisplayedLines(Some("Hello," + "\n" + "<think>" + "remove\nthis\nblock" + "</think>" + "\n" + "world!"))
            == ["Hello,", "", "world!"]
  {
    assert '<' !in "Hello," && '<' !in "remove\nthis\nblock" && '<' !in "world!";
    assert IsLine("Hello,") && IsLine("world!");
    ThinkAcrossLinesBetween("Hello,", "remove\nthis\nblock", "world!");
  }
}
