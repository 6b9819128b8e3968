/**
 * The message formatter: a line-by-line markdown block parser (code
 * fences, headings, list items, breaks, paragraphs) and the splitter that
 * cuts a line into plain text and `inline code`. The regular expressions
 * of the source are written out as matchers, each proved against a
 * relational description of what the expression accepts.
 */
module FormatMessage {
  import opened Wrappers
  import opened Strings

  // ---------------------------------------------------------------------
  // `\s+(.+)$`: white space, then the rest of the line as content

  /** `.` matches every character but a line terminator. */
  predicate NoTerminator(s: string) {
    forall i :: 0 <= i < |s| ==> !IsLineTerminator(s[i])
  }

  /** `rest` is white space of length at least one, then `content`: one way `\s+(.+)$` can match. */
  predicate SpaceThen(rest: string, j: int, content: string) {
    1 <= j < |rest| && IsBlank(rest[..j]) && content == rest[j..] && NoTerminator(content)
  }

  /** The length of the leading white space. */
  function LeadingSpace(s: string): (n: nat)
    ensures n <= |s|
  {
    |s| - |TrimStart(s)|
  }

  /** A blank prefix lies within the leading white space. */
  lemma {:induction false} LeadingSpaceCovers(s: string, j: nat)
    requires j <= |s| && IsBlank(s[..j])
    ensures LeadingSpace(s) >= j
  {
    if j > 0 {
      assert IsWhitespace(s[..j][0]);
      assert s[1..][..j - 1] == s[..j][1..];
      LeadingSpaceCovers(s[1..], j - 1);
    }
  }

  /** The leading white space is blank. */
  lemma LeadingSpaceBlank(s: string)
    ensures IsBlank(s[..LeadingSpace(s)])
  {
    TrimStartStripsBlank(s);
  }

  /**
   * `rest.match(/^\s+(.+)$/)[1]`: the greedy `\s+` takes the leading white
   * space, leaving at least one character to `.+`, which must reach the
   * end without crossing a line terminator.
   */
  function SpaceThenText(rest: string): (r: Option<string>)
  {
    var j := SpaceThenStart(rest);
    if 1 <= j && NoTerminator(rest[j..]) then Some(rest[j..]) else None
  }

  /** Where `.+` starts: after the leading white space, but leaving it at least one character. */
  function SpaceThenStart(rest: string): (j: int)
    ensures j < |rest|
  {
    if LeadingSpace(rest) < |rest| then LeadingSpace(rest) else |rest| - 1
  }

  /** What the matcher returns is a match, the one starting at `SpaceThenStart`. */
  lemma SpaceThenTextSound(rest: string)
    requires SpaceThenText(rest).Some?
    ensures SpaceThen(rest, SpaceThenStart(rest), SpaceThenText(rest).value)
  {
    var j := SpaceThenStart(rest);
    LeadingSpaceBlank(rest);
    assert rest[..j] == rest[..LeadingSpace(rest)][..j];
  }

  /** Whenever the expression can match, the matcher finds a match, and the greedy one: its content is no longer than any other. */
  lemma SpaceThenTextComplete(rest: string, j: int, content: string)
    requires SpaceThen(rest, j, content)
    ensures SpaceThenText(rest).Some? && |SpaceThenText(rest).value| <= |content|
  {
    LeadingSpaceCovers(rest, j);
    var k := SpaceThenStart(rest);
    assert k >= j;
    forall i | 0 <= i < |rest[k..]| ensures !IsLineTerminator(rest[k..][i]) {
      assert rest[k..][i] == content[i + k - j];
    }
  }

  // ---------------------------------------------------------------------
  // Headings and list items

  /** The number of leading characters `c`. */
  function RunOf(s: string, c: char): (n: nat)
    ensures n <= |s|
    ensures forall i :: 0 <= i < n ==> s[i] == c
    ensures n < |s| ==> s[n] != c
  {
    if s == [] || s[0] != c then 0 else 1 + RunOf(s[1..], c)
  }

  /** `line.match(/^(#{1,6})\s+(.+)$/)`: the level and the content. */
  function MatchHeading(line: string): Option<(nat, string)> {
    var n := RunOf(line, '#');
    if 1 <= n <= 6 && SpaceThenText(line[n..]).Some? then Some((n, SpaceThenText(line[n..]).value)) else None
  }

  /** The ways the heading expression can match: 1 to 6 '#', white space, content. */
  ghost predicate HeadingShape(line: string, level: nat, content: string) {
    1 <= level <= 6 && level <= |line| && (forall i :: 0 <= i < level ==> line[i] == '#')
    && exists j :: SpaceThen(line[level..], j, content)
  }

  /** A heading the matcher finds has the shape, and any line of the shape is found, at its level. */
  lemma HeadingMatches(line: string, level: nat, content: string)
    ensures MatchHeading(line).Some? ==> HeadingShape(line, MatchHeading(line).value.0, MatchHeading(line).value.1)
    ensures HeadingShape(line, level, content) ==> MatchHeading(line).Some? && MatchHeading(line).value.0 == level
  {
    var n := RunOf(line, '#');
    if MatchHeading(line).Some? {
      SpaceThenTextSound(line[n..]);
    }
    if HeadingShape(line, level, content) {
      var j :| SpaceThen(line[level..], j, content);
      assert IsWhitespace(line[level..][..j][0]);
      assert n == level;
      SpaceThenTextComplete(line[level..], j, content);
    }
  }

  predicate IsBullet(c: char) {
    c == '-' || c == '*' || c == '+'
  }

  /** `line.match(/^[\s]*[-*+]\s+(.+)$/)[1]`. */
  function MatchBullet(line: string): Option<string> {
    var rest := TrimStart(line);
    if rest != [] && IsBullet(rest[0]) then SpaceThenText(rest[1..]) else None
  }

  /** `line.match(/^[\s]*(\d+)\.\s+(.+)$/)[2]`: the content, without the number. */
  function MatchNumbered(line: string): Option<string> {
    NumberedAfterIndent(TrimStart(line))
  }

  /** The rest of that expression, after the leading white space: digits, a dot, white space and the content. */
  function NumberedAfterIndent(rest: string): Option<string> {
    NumberedAt(rest, DigitRun(rest))
  }

  /** Past `d` digits: a dot, then white space and the content. */
  function NumberedAt(rest: string, d: nat): Option<string>
    requires d <= |rest|
  {
    if 1 <= d < |rest| && rest[d] == '.' then SpaceThenText(rest[d + 1..]) else None
  }

  /** The number of leading decimal digits. */
  function DigitRun(s: string): (n: nat)
    ensures n <= |s|
    ensures n < |s| ==> !IsDigit(s[n])
  {
    if s == [] || !IsDigit(s[0]) then 0 else 1 + DigitRun(s[1..])
  }

  /** Every character the run counts is a digit. */
  lemma {:induction false} DigitRunDigits(s: string)
    ensures forall i :: 0 <= i < DigitRun(s) ==> IsDigit(s[i])
  {
    if s != [] && IsDigit(s[0]) {
      DigitRunDigits(s[1..]);
      assert forall i :: 1 <= i < DigitRun(s) ==> s[i] == s[1..][i - 1];
    }
  }

  /**
   * The ways the bullet expression can match: white space up to `i`, a
   * bullet at `i`, then white space and the content. No `\s` matches a
   * bullet, so `[\s]*` can only stop at `i`.
   */
  ghost predicate BulletShape(line: string, i: nat, content: string) {
    i < |line| && IsBlank(line[..i]) && IsBullet(line[i])
    && SpaceThenMatches(line[i + 1..], content)
  }

  /**
   * The ways the numbered expression can match: white space up to `i`,
   * `d` digits, a dot, then white space and the content.
   */
  ghost predicate NumberedShape(line: string, i: nat, d: nat, content: string) {
    1 <= d && i + d < |line| && IsBlank(line[..i])
    && (forall k :: i <= k < i + d ==> IsDigit(line[k])) && line[i + d] == '.'
    && SpaceThenMatches(line[i + d + 1..], content)
  }

  /** `\s+(.+)$` can match `rest` with this content. */
  ghost predicate SpaceThenMatches(rest: string, content: string) {
    exists j :: SpaceThen(rest, j, content)
  }

  /** Leading white space that ends at a visible character is exactly what `trimStart` strips. */
  lemma IndentEnd(line: string, i: nat)
    requires i < |line| && IsBlank(line[..i]) && !IsWhitespace(line[i])
    ensures LeadingSpace(line) == i && TrimStart(line) == line[i..]
  {
    LeadingSpaceCovers(line, i);
    LeadingSpaceBlank(line);
  }

  /** A digit run that stops at a non-digit is what `DigitRun` counts. */
  lemma DigitRunExact(s: string, d: nat)
    requires d < |s| && (forall k :: 0 <= k < d ==> IsDigit(s[k])) && !IsDigit(s[d])
    ensures DigitRun(s) == d
  {
    DigitRunDigits(s);
  }

  /**
   * A bullet item the matcher finds has the shape, after exactly the
   * leading white space; and any line of the shape is found, with the
   * greedy match's content, which is no longer than any other.
   */
  lemma BulletMatches(line: string, i: nat, content: string)
    ensures MatchBullet(line).Some? ==> BulletShape(line, LeadingSpace(line), MatchBullet(line).value)
    ensures BulletShape(line, i, content) ==>
              i == LeadingSpace(line) && MatchBullet(line).Some? && |MatchBullet(line).value| <= |content|
  {
    if MatchBullet(line).Some? {
      BulletSound(line, LeadingSpace(line), TrimStart(line), MatchBullet(line).value);
    }
    if BulletShape(line, i, content) {
      BulletComplete(line, i, content, TrimStart(line));
    }
  }

  lemma BulletSound(line: string, n: nat, rest: string, found: string)
    requires n == LeadingSpace(line) && rest == TrimStart(line) && MatchBullet(line) == Some(found)
    ensures BulletShape(line, n, found)
  {
    assert rest == line[n..];
    LeadingSpaceBlank(line);
    var tail := rest[1..];
    assert tail == line[n + 1..];
    SpaceThenTextSound(tail);
    assert SpaceThen(tail, SpaceThenStart(tail), found);
  }

  lemma BulletComplete(line: string, i: nat, content: string, rest: string)
    requires BulletShape(line, i, content) && rest == TrimStart(line)
    ensures i == LeadingSpace(line) && MatchBullet(line).Some? && |MatchBullet(line).value| <= |content|
  {
    var tail := line[i + 1..];
    var j :| SpaceThen(tail, j, content);
    IndentEnd(line, i);
    assert rest[1..] == tail;
    SpaceThenTextComplete(tail, j, content);
  }

  /**
   * A numbered item the matcher finds has the shape, after exactly the
   * leading white space and over the whole digit run; and any line of
   * the shape is found, with the greedy match's content.
   */
  lemma NumberedMatches(line: string, i: nat, d: nat, content: string)
    ensures MatchNumbered(line).Some? ==>
              NumberedShape(line, LeadingSpace(line), DigitRun(TrimStart(line)), MatchNumbered(line).value)
    ensures NumberedShape(line, i, d, content) ==>
              i == LeadingSpace(line) && d == DigitRun(TrimStart(line))
              && MatchNumbered(line).Some? && |MatchNumbered(line).value| <= |content|
  {
    if MatchNumbered(line).Some? {
      NumberedSound(line, LeadingSpace(line), TrimStart(line), DigitRun(TrimStart(line)), MatchNumbered(line).value);
    }
    if NumberedShape(line, i, d, content) {
      NumberedComplete(line, i, d, content, TrimStart(line));
    }
  }

  lemma NumberedSound(line: string, n: nat, rest: string, e: nat, found: string)
    requires n == LeadingSpace(line) && rest == TrimStart(line) && e == DigitRun(rest)
    requires MatchNumbered(line) == Some(found)
    ensures NumberedShape(line, n, e, found)
  {
    NumberedAfterIndentSound(rest, e, found);
    LeadingSpaceBlank(line);
    NumberedShift(line, n, rest, e, found);
  }

  lemma NumberedComplete(line: string, i: nat, d: nat, content: string, rest: string)
    requires NumberedShape(line, i, d, content) && rest == TrimStart(line)
    ensures i == LeadingSpace(line) && d == DigitRun(rest)
    ensures MatchNumbered(line).Some? && |MatchNumbered(line).value| <= |content|
  {
    assert IsDigit(line[i]);
    IndentEnd(line, i);
    NumberedUnshift(line, i, d, content, rest);
    NumberedAfterIndentComplete(rest, d, content);
  }

  /** Numbered items after the indentation: the digits, a dot, then a match of `\s+(.+)$`. */
  ghost predicate NumberedRestShape(rest: string, d: nat, content: string) {
    1 <= d < |rest| && (forall k :: 0 <= k < d ==> IsDigit(rest[k])) && rest[d] == '.'
    && SpaceThenMatches(rest[d + 1..], content)
  }

  lemma NumberedAfterIndentSound(rest: string, e: nat, found: string)
    requires e == DigitRun(rest) && NumberedAfterIndent(rest) == Some(found)
    ensures NumberedRestShape(rest, e, found)
  {
    DigitRunDigits(rest);
    NumberedAtSound(rest, e, found);
  }

  /** What the matcher finds past `e` digits is a dot, then a match of `\s+(.+)$`. */
  lemma NumberedAtSound(rest: string, e: nat, found: string)
    requires e <= |rest| && NumberedAt(rest, e) == Some(found)
    ensures 1 <= e < |rest| && rest[e] == '.' && SpaceThenMatches(rest[e + 1..], found)
  {
    var tail := rest[e + 1..];
    SpaceThenTextSound(tail);
    assert SpaceThen(tail, SpaceThenStart(tail), found);
  }

  lemma NumberedAfterIndentComplete(rest: string, d: nat, content: string)
    requires NumberedRestShape(rest, d, content)
    ensures d == DigitRun(rest)
    ensures NumberedAfterIndent(rest).Some? && |NumberedAfterIndent(rest).value| <= |content|
  {
    var tail := rest[d + 1..];
    var j :| SpaceThen(tail, j, content);
    DigitRunExact(rest, d);
    SpaceThenTextComplete(tail, j, content);
  }

  /** The item shape after the indentation, placed after blank indentation. */
  lemma NumberedShift(line: string, n: nat, rest: string, e: nat, content: string)
    requires n <= |line| && rest == line[n..] && IsBlank(line[..n]) && NumberedRestShape(rest, e, content)
    ensures NumberedShape(line, n, e, content)
  {
    assert forall k :: n <= k < n + e ==> line[k] == rest[k - n];
    assert rest[e + 1..] == line[n + e + 1..];
  }

  /** The item shape of a line, seen after its indentation. */
  lemma NumberedUnshift(line: string, i: nat, d: nat, content: string, rest: string)
    requires NumberedShape(line, i, d, content) && rest == line[i..]
    ensures NumberedRestShape(rest, d, content)
  {
    assert forall k :: 0 <= k < d ==> rest[k] == line[i + k];
    assert rest[d + 1..] == line[i + d + 1..];
  }

  // ---------------------------------------------------------------------
  // parseMarkdown

  datatype Element =
    | CodeBlock(content: string, language: string, key: string)
    | Heading(level: nat, content: string, key: string)
    | ListItem(ordered: bool, content: string, key: string)
    | Break(key: string)
    | Paragraph(content: string, key: string)

  const Fence := "```"

  /** `line.trim().startsWith('```')`. */
  predicate IsFence(line: string) {
    StartsWith(Trim(line), Fence)
  }

  /** The language named after an opening fence: `line.trim().substring(3).trim()`. */
  function Language(line: string): string
    requires IsFence(line)
  {
    Trim(Trim(line)[|Fence|..])
  }

  /** A React key: a prefix, a dash and the line number. */
  function Key(prefix: string, idx: nat): string {
    prefix + "-" + NatToString(idx)
  }

  /** The element an ordinary line outside a code block becomes; headings are tried first, then list items. */
  function Classify(line: string, idx: nat): Element {
    var h := MatchHeading(line);
    if h.Some? then Heading(h.value.0, h.value.1, Key("h", idx))
    else if MatchBullet(line).Some? then ListItem(false, MatchBullet(line).value, Key("li", idx))
    else if MatchNumbered(line).Some? then ListItem(true, MatchNumbered(line).value, Key("li", idx))
    else if Trim(line) == "" then Break(Key("br", idx))
    else Paragraph(line, Key("p", idx))
  }

  /** The parser's variables between two lines. */
  datatype ParseState = ParseState(inCode: bool, code: seq<string>, language: string, elements: seq<Element>)

  const Start := ParseState(false, [], "", [])

  /** The effect of line number `idx`. */
  function Step(st: ParseState, line: string, idx: nat): ParseState {
    if IsFence(line) then
      if !st.inCode then ParseState(true, [], Language(line), st.elements)
      else ParseState(false, [], "", st.elements + [CodeBlock(Join(st.code, "\n"), st.language, Key("code", idx))])
    else if st.inCode then st.(code := st.code + [line])
    else st.(elements := st.elements + [Classify(line, idx)])
  }

  /** The state after the given lines. */
  function Run(lines: seq<string>): ParseState {
    if lines == [] then Start
    else Step(Run(lines[..|lines| - 1]), lines[|lines| - 1], |lines| - 1)
  }

  /** After the last line: a code block left open is emitted only if it collected something. */
  function Finish(st: ParseState): seq<Element> {
    if st.inCode && |st.code| > 0 then st.elements + [CodeBlock(Join(st.code, "\n"), st.language, "code-end")]
    else st.elements
  }

  /** What `parseMarkdown(text)` returns. */
  function Markdown(text: string): seq<Element> {
    if text == "" then [] else Finish(Run(Split(text, '\n')))
  }

  lemma RunStep(lines: seq<string>, i: nat)
    requires i < |lines|
    ensures Run(lines[..i + 1]) == Step(Run(lines[..i]), lines[i], i)
  {
    assert lines[..i + 1][..i] == lines[..i];
  }

  /** A non-empty suffix splits into its front and its last element. */
  lemma SnocSplit<T>(a: seq<T>, b: seq<T>)
    requires b != []
    ensures a + b == (a + b[..|b| - 1]) + [b[|b| - 1]]
  {
  }

  lemma RunSnoc(lines: seq<string>, line: string)
    ensures Run(lines + [line]) == Step(Run(lines), line, |lines|)
  {
    assert (lines + [line])[..|lines|] == lines;
  }

  /** `parseMarkdown`: one pass over the lines, then the unclosed-block check. */
  method ParseMarkdown(text: string) returns (elements: seq<Element>)
    ensures elements == Markdown(text)
    ensures text == "" ==> elements == []
  {
    if text == "" {
      return [];
    }
    var lines := Split(text, '\n');
    var inCodeBlock, codeBlockContent, codeBlockLanguage;
    inCodeBlock, codeBlockContent, codeBlockLanguage, elements := ParseLines(lines);
    if inCodeBlock && |codeBlockContent| > 0 {
      elements := elements + [CodeBlock(Join(codeBlockContent, "\n"), codeBlockLanguage, "code-end")];
    }
  }

  /** The loop of `parseMarkdown` over the lines: its variables end as the state after all of them. */
  method ParseLines(lines: seq<string>)
    returns (inCodeBlock: bool, codeBlockContent: seq<string>, codeBlockLanguage: string, elements: seq<Element>)
    ensures ParseState(inCodeBlock, codeBlockContent, codeBlockLanguage, elements) == Run(lines)
  {
    elements := [];
    inCodeBlock := false;
    codeBlockContent := [];
    codeBlockLanguage := "";
    var lineIndex := 0;
    assert lines[..0] == [];
    while lineIndex < |lines|
      invariant 0 <= lineIndex <= |lines|
      invariant ParseState(inCodeBlock, codeBlockContent, codeBlockLanguage, elements) == Run(lines[..lineIndex])
    {
      RunStep(lines, lineIndex);
      inCodeBlock, codeBlockContent, codeBlockLanguage, elements :=
        ParseLine(inCodeBlock, codeBlockContent, codeBlockLanguage, elements, lines[lineIndex], lineIndex);
      lineIndex := lineIndex + 1;
    }
    assert lines[..|lines|] == lines;
  }

  /** The body of the loop for line number `lineIndex`: a fence opens or closes a code block, other lines are collected or classified. */
  method ParseLine(inCodeBlock0: bool, codeBlockContent0: seq<string>, codeBlockLanguage0: string, elements0: seq<Element>,
                   line: string, lineIndex: nat)
    returns (inCodeBlock: bool, codeBlockContent: seq<string>, codeBlockLanguage: string, elements: seq<Element>)
    ensures ParseState(inCodeBlock, codeBlockContent, codeBlockLanguage, elements)
         == Step(ParseState(inCodeBlock0, codeBlockContent0, codeBlockLanguage0, elements0), line, lineIndex)
  {
    inCodeBlock, codeBlockContent, codeBlockLanguage, elements := inCodeBlock0, codeBlockContent0, codeBlockLanguage0, elements0;
    if IsFence(line) {
      if !inCodeBlock {
        inCodeBlock := true;
        codeBlockLanguage := Language(line);
        codeBlockContent := [];
      } else {
        inCodeBlock := false;
        elements := elements + [CodeBlock(Join(codeBlockContent, "\n"), codeBlockLanguage, Key("code", lineIndex))];
        codeBlockContent := [];
        codeBlockLanguage := "";
      }
    } else if inCodeBlock {
      codeBlockContent := codeBlockContent + [line];
    } else {
      elements := elements + [Classify(line, lineIndex)];
    }
  }

  /** Without fences, every line gives exactly one element, its own, in order. */
  lemma {:induction false} PlainLines(lines: seq<string>)
    requires forall i :: 0 <= i < |lines| ==> !IsFence(lines[i])
    ensures !Run(lines).inCode && Run(lines).code == [] && Run(lines).language == ""
    ensures |Run(lines).elements| == |lines|
    ensures forall i :: 0 <= i < |lines| ==> Run(lines).elements[i] == Classify(lines[i], i)
  {
    if lines != [] {
      var n := |lines| - 1;
      var init := lines[..n];
      forall i | 0 <= i < n ensures !IsFence(init[i]) {
        assert init[i] == lines[i];
      }
      PlainLines(init);
      var st := Run(init);
      PlainStep(st, lines[n], n);
      var es := st.elements + [Classify(lines[n], n)];
      assert Run(lines).elements == es;
      forall i | 0 <= i < |lines| ensures es[i] == Classify(lines[i], i) {
        if i < n {
          assert es[i] == st.elements[i];
          assert init[i] == lines[i];
        } else {
          assert i == n;
        }
      }
    }
  }

  /** An ordinary line outside a block adds its element and nothing else. */
  lemma PlainStep(st: ParseState, line: string, idx: nat)
    requires !st.inCode && !IsFence(line)
    ensures Step(st, line, idx) == st.(elements := st.elements + [Classify(line, idx)])
  {
  }

  /** None of the lines is a fence. */
  predicate NoFence(lines: seq<string>) {
    lines == [] || (NoFence(lines[..|lines| - 1]) && !IsFence(lines[|lines| - 1]))
  }

  /** Inside a code block, lines without a fence are collected verbatim. */
  lemma {:induction false} CodeCollects(pre: seq<string>, body: seq<string>)
    requires Run(pre).inCode
    requires NoFence(body)
    ensures Run(pre + body).inCode && Run(pre + body).language == Run(pre).language
    ensures Run(pre + body).code == Run(pre).code + body
    ensures Run(pre + body).elements == Run(pre).elements
  {
    if body == [] {
      assert pre + body == pre;
    } else {
      var n := |body| - 1;
      var init := body[..n];
      CodeCollects(pre, init);
      SnocSplit(pre, body);
      SnocSplit(Run(pre).code, body);
      RunSnoc(pre + init, body[n]);
    }
  }

  /** An opening fence outside a block starts one, named by the fence's language. */
  lemma OpenBlock(x: seq<string>, fence: string)
    requires !Run(x).inCode && IsFence(fence)
    ensures Run(x + [fence]) == ParseState(true, [], Language(fence), Run(x).elements)
  {
    RunSnoc(x, fence);
  }

  /** A fence inside a block closes it and emits what it collected. */
  lemma CloseBlock(x: seq<string>, fence: string)
    requires Run(x).inCode && IsFence(fence)
    ensures Run(x + [fence]) == ParseState(false, [], "", Run(x).elements + [CodeBlock(Join(Run(x).code, "\n"), Run(x).language, Key("code", |x|))])
  {
    RunSnoc(x, fence);
  }

  /** The key of the closing fence's block counts the lines before it. */
  lemma LengthOfBlock(pre: seq<string>, fence: string, body: seq<string>)
    ensures Key("code", |pre + [fence] + body|) == Key("code", |pre| + 1 + |body|)
  {
  }

  /** The empty sequence is a left unit. */
  lemma EmptyAppend<T>(a: seq<T>)
    ensures [] + a == a
  {
  }

  /** A fenced block: its lines, joined by "\n", become one code block with the opening fence's language. */
  lemma FencedBlock(pre: seq<string>, fence: string, body: seq<string>, close: string)
    requires !Run(pre).inCode && IsFence(fence) && IsFence(close)
    requires NoFence(body)
    ensures Run(pre + [fence] + body + [close]).elements
            == Run(pre).elements + [CodeBlock(Join(body, "\n"), Language(fence), Key("code", |pre| + 1 + |body|))]
    ensures !Run(pre + [fence] + body + [close]).inCode
  {
    OpenBlock(pre, fence);
    CodeCollects(pre + [fence], body);
    EmptyAppend(body);
    var x := pre + [fence] + body;
    LengthOfBlock(pre, fence, body);
    CloseBlock(x, close);
  }

  /** The elements never outnumber the lines. */
  lemma {:induction false} ElementsAtMostLines(lines: seq<string>)
    ensures |Run(lines).elements| + (if Run(lines).inCode then 1 else 0) <= |lines|
    ensures |Finish(Run(lines))| <= |lines|
  {
    if lines != [] {
      ElementsAtMostLines(lines[..|lines| - 1]);
    }
  }

  /** An opening fence never closed: what it collected is emitted at the end, keyed "code-end", unless it collected nothing. */
  lemma UnclosedBlock(fence: string, body: seq<string>)
    requires IsFence(fence) && NoFence(body)
    ensures Finish(Run([fence] + body))
            == if body == [] then [] else [CodeBlock(Join(body, "\n"), Language(fence), "code-end")]
  {
    assert Run([]) == Start;
    assert [] + [fence] == [fence];
    OpenBlock([], fence);
    CodeCollects([fence], body);
    assert [] + body == body;
  }

  /** A blank line outside a code block is a break. */
  lemma BlankIsBreak(line: string, idx: nat)
    requires IsBlank(line)
    ensures Classify(line, idx) == Break(Key("br", idx))
  {
    TrimEmptyIffBlank(line);
    TrimEmpty(line);
    assert TrimStart(line) == [];
    assert MatchBullet(line).None?;
    assert DigitRun(TrimStart(line)) == 0;
    assert MatchNumbered(line).None?;
    if line != [] {
      assert IsWhitespace(line[0]);
      assert RunOf(line, '#') == 0;
    }
    assert MatchHeading(line).None?;
  }

  /** A line starting with a visible character that opens no heading or list item is a paragraph, kept as written. */
  lemma PlainIsParagraph(line: string, idx: nat)
    requires line != [] && !IsWhitespace(line[0]) && !IsBullet(line[0]) && line[0] != '#' && !IsDigit(line[0])
    ensures Classify(line, idx) == Paragraph(line, Key("p", idx))
  {
    TrimNotEmpty(line);
  }

  /** `#` repeated `level` times, a space and the content make a heading of that level with exactly that content. */
  lemma HeadingLine(level: nat, content: string, idx: nat)
    requires 1 <= level <= 6
    requires content != [] && !IsWhitespace(content[0]) && NoTerminator(content)
    ensures Classify(seq(level, _ => '#') + " " + content, idx) == Heading(level, content, Key("h", idx))
  {
    var line := seq(level, _ => '#') + " " + content;
    assert RunOf(line, '#') == level by {
      assert line == seq(level, _ => '#') + (" " + content);
      HashRun(seq(level, _ => '#'), " " + content);
    }
    assert line[level..] == " " + content;
    OneSpaceThenText(content);
    assert MatchHeading(line) == Some((level, content));
  }

  /** One space before a visible, single-line text: the matcher takes exactly that text. */
  lemma OneSpaceThenText(content: string)
    requires content != [] && !IsWhitespace(content[0]) && NoTerminator(content)
    ensures SpaceThenText(" " + content) == Some(content)
  {
    var rest := " " + content;
    assert rest[1..] == content;
    assert TrimStart(rest) == content;
    assert LeadingSpace(rest) == 1;
  }

  /** `OneSpaceThenText`, for a text known to be one space and the content. */
  lemma SpaceThenTextOf(tail: string, content: string)
    requires content != [] && !IsWhitespace(content[0]) && NoTerminator(content)
    requires tail == " " + content
    ensures SpaceThenText(tail) == Some(content)
  {
    OneSpaceThenText(content);
  }

  lemma {:induction false} HashRun(hashes: string, rest: string)
    requires forall i :: 0 <= i < |hashes| ==> hashes[i] == '#'
    requires rest != [] && rest[0] != '#'
    ensures RunOf(hashes + rest, '#') == |hashes|
  {
    if hashes != [] {
      assert (hashes + rest)[1..] == hashes[1..] + rest;
      HashRun(hashes[1..], rest);
    } else {
      assert hashes + rest == rest;
    }
  }

  /** Leading white space is exactly what `trimStart` removes. */
  lemma {:induction false} TrimStartAfterBlank(indent: string, rest: string)
    requires IsBlank(indent)
    requires rest == [] || !IsWhitespace(rest[0])
    ensures TrimStart(indent + rest) == rest
  {
    if indent != [] {
      assert (indent + rest)[0] == indent[0];
      assert (indent + rest)[1..] == indent[1..] + rest;
      TrimStartAfterBlank(indent[1..], rest);
    } else {
      assert indent + rest == rest;
    }
  }

  lemma {:induction false} DigitRunOf(digits: string, rest: string)
    requires forall i :: 0 <= i < |digits| ==> IsDigit(digits[i])
    requires rest != [] && !IsDigit(rest[0])
    ensures DigitRun(digits + rest) == |digits|
  {
    if digits != [] {
      assert (digits + rest)[1..] == digits[1..] + rest;
      DigitRunOf(digits[1..], rest);
    } else {
      assert digits + rest == rest;
    }
  }

  /** A line that does not start with `#` is no heading. */
  lemma NotHeading(line: string)
    requires line != [] && line[0] != '#'
    ensures MatchHeading(line).None?
  {
  }

  /** The first character of an indented line: the indentation's, else the line's own. */
  lemma FirstAfterIndent(indent: string, rest: string)
    requires rest != []
    ensures (indent + rest)[0] == if indent != [] then indent[0] else rest[0]
  {
  }

  /**
   * Any indentation, one of `-`, `*` or `+`, a space and the content make
   * an unordered list item with exactly that content.
   */
  lemma BulletLine(indent: string, bullet: char, content: string, idx: nat)
    requires IsBlank(indent) && IsBullet(bullet)
    requires content != [] && !IsWhitespace(content[0]) && NoTerminator(content)
    ensures Classify(indent + [bullet] + " " + content, idx) == ListItem(false, content, Key("li", idx))
  {
    var rest := [bullet] + (" " + content);
    var line := indent + rest;
    assert indent + [bullet] + " " + content == line;
    TrimStartAfterBlank(indent, rest);
    FirstAfterIndent(indent, rest);
    NotHeading(line);
    BulletMatch(line, bullet, content);
  }

  /** The bullet matcher on a line whose trimmed start is a bullet, a space and the content. */
  lemma BulletMatch(line: string, bullet: char, content: string)
    requires IsBullet(bullet)
    requires content != [] && !IsWhitespace(content[0]) && NoTerminator(content)
    requires TrimStart(line) == [bullet] + (" " + content)
    ensures MatchBullet(line) == Some(content)
  {
    assert TrimStart(line)[1..] == " " + content;
    OneSpaceThenText(content);
  }

  /**
   * Any indentation, a number, a dot, a space and the content make an
   * ordered list item with exactly that content; the number is dropped.
   */
  lemma NumberedLine(indent: string, digits: string, content: string, idx: nat)
    requires IsBlank(indent)
    requires digits != [] && forall i :: 0 <= i < |digits| ==> IsDigit(digits[i])
    requires content != [] && !IsWhitespace(content[0]) && NoTerminator(content)
    ensures Classify(indent + digits + ". " + content, idx) == ListItem(true, content, Key("li", idx))
  {
    var rest := digits + (". " + content);
    var line := indent + rest;
    assert indent + digits + ". " + content == line;
    TrimStartAfterBlank(indent, rest);
    FirstAfterIndent(indent, rest);
    NotHeading(line);
    NumberedMatch(line, digits, content);
  }

  /** The list matchers on a line whose trimmed start is a number, a dot, a space and the content. */
  lemma NumberedMatch(line: string, digits: string, content: string)
    requires digits != [] && forall i :: 0 <= i < |digits| ==> IsDigit(digits[i])
    requires content != [] && !IsWhitespace(content[0]) && NoTerminator(content)
    requires TrimStart(line) == digits + (". " + content)
    ensures MatchBullet(line).None? && MatchNumbered(line) == Some(content)
  {
    NumberedNotBullet(line, digits, ". " + content);
    NumberedRest(TrimStart(line), digits, content);
    NumberedContent(TrimStart(line), |digits|, content);
  }

  /** A line whose trimmed start is a digit is no bullet item. */
  lemma NumberedNotBullet(line: string, digits: string, tail: string)
    requires digits != [] && IsDigit(digits[0])
    requires TrimStart(line) == digits + tail
    ensures MatchBullet(line).None?
  {
    assert TrimStart(line)[0] == digits[0];
  }

  /** When the digit run ends at a dot followed by a space, the numbered matcher takes what follows. */
  lemma NumberedContent(rest: string, d: nat, content: string)
    requires content != [] && !IsWhitespace(content[0]) && NoTerminator(content)
    requires 1 <= d < |rest| && DigitRun(rest) == d && rest[d] == '.'
    requires rest[d + 1..] == " " + content
    ensures NumberedAfterIndent(rest) == Some(content)
  {
    SpaceThenTextOf(rest[DigitRun(rest) + 1..], content);
  }

  /** A number, a dot, a space and the content: no bullet, and the digit run ends at the dot. */
  lemma NumberedRest(rest: string, digits: string, content: string)
    requires digits != [] && forall i :: 0 <= i < |digits| ==> IsDigit(digits[i])
    requires rest == digits + (". " + content)
    ensures rest != [] && !IsBullet(rest[0])
    ensures DigitRun(rest) == |digits| < |rest| && rest[|digits|] == '.'
    ensures rest[|digits| + 1..] == " " + content
  {
    assert rest[0] == digits[0];
    DigitRunOf(digits, ". " + content);
  }

  /** `formatMessage`: nothing for a missing, empty or blank text; otherwise the parsed blocks. */
  method Format(text: Option<string>) returns (r: Option<seq<Element>>)
    ensures r.None? <==> text.None? || IsBlank(text.value)
    ensures r.Some? ==> r.value == Markdown(text.value)
  {
    if !Truthy(text) || Trim(text.value) == "" {
      if text.Some? {
        TrimEmptyIffBlank(text.value);
      }
      return None;
    }
    TrimEmptyIffBlank(text.value);
    var elements := ParseMarkdown(text.value);
    return Some(elements);
  }

  // ---------------------------------------------------------------------
  // parseInlineFormatting

  /** `` `code` `` from index `p` to the closing backtick at `q`: at least one character, none a backtick. */
  predicate CodeAt(s: string, p: int, q: int) {
    0 <= p && p + 1 < q < |s| && s[p] == '`' && s[q] == '`' && forall k :: p < k < q ==> s[k] != '`'
  }

  /** Whether `/`([^`]+)`/` matches anywhere in `s`. */
  ghost predicate HasCode(s: string) {
    exists p, q :: CodeAt(s, p, q)
  }

  /** The first backtick at or after `k`, or |s|. */
  function NextTick(s: string, k: nat): (q: nat)
    requires k <= |s|
    ensures k <= q <= |s|
    ensures q < |s| ==> s[q] == '`'
    decreases |s| - k
  {
    if k == |s| || s[k] == '`' then k else NextTick(s, k + 1)
  }

  /** No backtick is skipped on the way to the next one. */
  lemma {:induction false} NextTickSkips(s: string, k: nat)
    requires k <= |s|
    ensures forall i :: k <= i < NextTick(s, k) ==> s[i] != '`'
    decreases |s| - k
  {
    if k < |s| && s[k] != '`' {
      NextTickSkips(s, k + 1);
    }
  }

  /** `codeRegex.exec(s)` with `lastIndex == k`: the leftmost match starting at or after `k`. */
  function FindCode(s: string, k: nat): (r: Option<(nat, nat)>)
    requires k <= |s|
    ensures r.Some? ==> k <= r.value.0 && CodeAt(s, r.value.0, r.value.1)
    ensures NoSpanFrom(s, k, if r.Some? then r.value.0 else |s|)
    decreases |s| - k
  {
    if k == |s| then None
    else
      NextTickSkips(s, k + 1);
      if s[k] == '`' && NextTick(s, k + 1) < |s| && NextTick(s, k + 1) > k + 1 then Some((k, NextTick(s, k + 1)))
      else FindCode(s, k + 1)
  }

  /** No span starts at an index from `i` up to `j`; stated one index at a time. */
  ghost predicate NoSpanFrom(s: string, i: nat, j: nat)
    decreases j - i
  {
    i >= j || ((forall q :: !CodeAt(s, i, q)) && NoSpanFrom(s, i + 1, j))
  }

  lemma {:induction false} NoSpanFromMeans(s: string, i: nat, j: nat)
    requires NoSpanFrom(s, i, j)
    ensures forall p, q :: i <= p < j ==> !CodeAt(s, p, q)
    decreases j - i
  {
    if i < j {
      NoSpanFromMeans(s, i + 1, j);
    }
  }

  datatype Part = Text(content: string, key: string) | InlineCode(content: string, key: string)

  /** The source text a part stands for: inline code goes back between backticks. */
  function Source(p: Part): string {
    if p.Text? then p.content else "`" + p.content + "`"
  }

  function Reassemble(parts: seq<Part>): string {
    if parts == [] then "" else Reassemble(parts[..|parts| - 1]) + Source(parts[|parts| - 1])
  }

  /** `txt-<k>` or `ic-<k>`, numbered by position. */
  function PartKey(isText: bool, k: nat): string {
    (if isText then "txt-" else "ic-") + NatToString(k)
  }

  lemma CodeInSlice(s: string, i: nat, j: nat, p: int, q: int)
    requires i <= j <= |s| && CodeAt(s[i..j], p, q)
    ensures CodeAt(s, i + p, i + q)
  {
    assert s[i + p] == s[i..j][p] && s[i + q] == s[i..j][q];
    forall k | i + p < k < i + q ensures s[k] != '`' {
      assert s[k] == s[i..j][k - i];
    }
  }

  /** A slice that holds no match start holds no match. */
  lemma NoCodeInSlice(s: string, i: nat, j: nat)
    requires i <= j <= |s|
    requires forall p, q :: i <= p < j ==> !CodeAt(s, p, q)
    ensures !HasCode(s[i..j])
  {
    if HasCode(s[i..j]) {
      var p, q :| CodeAt(s[i..j], p, q);
      CodeInSlice(s, i, j, p, q);
    }
  }

  /** Putting a span back between its backticks gives the text up to the closing one. */
  lemma SpanJoin(s: string, p: nat, q: nat)
    requires p < q < |s| && s[p] == '`' && s[q] == '`'
    ensures s[..p] + ("`" + s[p + 1..q] + "`") == s[..q + 1]
  {
    assert s[..q + 1] == s[..p] + [s[p]] + s[p + 1..q] + [s[q]];
  }

  lemma ReassembleSnoc(parts: seq<Part>, p: Part)
    ensures Reassemble(parts + [p]) == Reassemble(parts) + Source(p)
  {
    assert (parts + [p])[..|parts|] == parts;
  }

  /** Part number `i` is as the splitter makes it: numbered key, some content, no span in text, no backtick in code. */
  ghost predicate PartOk(p: Part, i: nat) {
    p.key == PartKey(p.Text?, i) && p.content != ""
    && (p.InlineCode? ==> '`' !in p.content)
    && (p.Text? ==> !HasCode(p.content))
  }

  /** Every part is well formed at its position; stated one part at a time, from the end. */
  ghost predicate WellFormed(parts: seq<Part>) {
    parts == [] || (WellFormed(parts[..|parts| - 1]) && PartOk(parts[|parts| - 1], |parts| - 1))
  }

  lemma {:induction false} WellFormedMeans(parts: seq<Part>)
    requires WellFormed(parts)
    ensures forall i :: 0 <= i < |parts| ==> PartOk(parts[i], i)
  {
    if parts != [] {
      var init := parts[..|parts| - 1];
      WellFormedMeans(init);
      forall i | 0 <= i < |parts| ensures PartOk(parts[i], i) {
        if i < |init| {
          assert parts[i] == init[i];
        }
      }
    }
  }

  lemma WellFormedSnoc(parts: seq<Part>, p: Part)
    requires WellFormed(parts) && PartOk(p, |parts|)
    ensures WellFormed(parts + [p])
  {
    assert (parts + [p])[..|parts|] == parts;
  }

  /**
   * The parts one match from `p` to the backtick at `q` adds when the
   * previous match ended at `k`: the text in between, if any, then the
   * span; keys are numbered from `n`.
   */
  function SpanParts(s: string, k: nat, n: nat, p: nat, q: nat): seq<Part>
    requires k <= p && p < q < |s|
  {
    (if p > k then [Text(s[k..p], PartKey(true, n))] else [])
    + [InlineCode(s[p + 1..q], PartKey(false, if p > k then n + 1 else n))]
  }

  /** Where `codeRegex.exec`, run from `lastIndex == k` and on after each match's closing backtick, finds nothing: no span starts from there on. */
  function CutEnd(s: string, k: nat): (e: nat)
    requires k <= |s|
    ensures k <= e <= |s| && FindCode(s, e).None?
    decreases |s| - k
  {
    match FindCode(s, k)
    case None => k
    case Some(m) => CutEnd(s, m.1 + 1)
  }

  /**
   * The parts that run adds to `acc`: each match adds the text before it,
   * if any, then its span, numbered from `|acc|`.
   */
  function CutParts(s: string, k: nat, acc: seq<Part>): seq<Part>
    requires k <= |s|
    decreases |s| - k
  {
    match FindCode(s, k)
    case None => acc
    case Some(m) => CutParts(s, m.1 + 1, acc + SpanParts(s, k, |acc|, m.0, m.1))
  }

  /**
   * What `parseInlineFormatting(text)` returns: the parts cut at every
   * span, then a text part for what follows the last span, if anything;
   * one empty text part for the empty text.
   */
  function Inline(text: string): seq<Part> {
    var cut, last := CutParts(text, 0, []), CutEnd(text, 0);
    var parts := if last < |text| then cut + [Text(text[last..], PartKey(true, |cut|))] else cut;
    if parts == [] then [Text(text, PartKey(true, 0))] else parts
  }

  /** One step of the run at the leftmost span `m`: on to just after its closing backtick, with its parts added. */
  lemma {:induction false} CutStep(s: string, k: nat, acc: seq<Part>, m: (nat, nat), k': nat, acc': seq<Part>)
    requires k <= |s| && FindCode(s, k) == Some(m)
    requires k' == m.1 + 1 && acc' == acc + SpanParts(s, k, |acc|, m.0, m.1)
    ensures k <= m.0 < m.1 < k' <= |s| && CodeAt(s, m.0, m.1)
    ensures CutParts(s, k, acc) == CutParts(s, k', acc') && CutEnd(s, k) == CutEnd(s, k')
  {
  }

  /** Where nothing is found the run stops at once. */
  lemma CutStop(s: string, k: nat, acc: seq<Part>)
    requires k <= |s| && FindCode(s, k).None?
    ensures CutParts(s, k, acc) == acc && CutEnd(s, k) == k
  {
  }

  /**
   * Cutting on from a prefix that reassembles to the text before `k`
   * gives parts that reassemble to the text up to where the run stops,
   * and stay well formed.
   */
  lemma {:induction false} CutReassembles(s: string, k: nat, acc: seq<Part>, parts: seq<Part>, e: nat)
    requires k <= |s| && Reassemble(acc) == s[..k] && WellFormed(acc)
    requires parts == CutParts(s, k, acc) && e == CutEnd(s, k)
    ensures e <= |s| && Reassemble(parts) == s[..e] && WellFormed(parts)
    decreases |s| - k
  {
    match FindCode(s, k)
    case None =>
      CutStop(s, k, acc);
    case Some(m) =>
      var acc' := acc + SpanParts(s, k, |acc|, m.0, m.1);
      CutReassemblesStep(s, k, acc, m, m.1 + 1, acc', parts, e);
      CutReassembles(s, m.1 + 1, acc', parts, e);
  }

  /** The step of that induction at the leftmost span `m`, ending at `k'` with `acc'`. */
  lemma CutReassemblesStep(s: string, k: nat, acc: seq<Part>, m: (nat, nat), k': nat, acc': seq<Part>, parts: seq<Part>, e: nat)
    requires k <= |s| && FindCode(s, k) == Some(m) && Reassemble(acc) == s[..k] && WellFormed(acc)
    requires k' == m.1 + 1 && acc' == acc + SpanParts(s, k, |acc|, m.0, m.1)
    requires parts == CutParts(s, k, acc) && e == CutEnd(s, k)
    ensures k < k' <= |s|
    ensures parts == CutParts(s, k', acc') && e == CutEnd(s, k')
    ensures Reassemble(acc') == s[..k'] && WellFormed(acc')
  {
    CutStep(s, k, acc, m, k', acc');
    PushSpanParts(s, acc, k, m.0, m.1, acc', k');
  }

  /** Put back together the parts of any text give the text, and they are well formed unless the text is empty. */
  lemma InlineReassembles(text: string)
    ensures Reassemble(Inline(text)) == text
    ensures text != "" ==> WellFormed(Inline(text))
  {
    assert text[..0] == [];
    var cut, last := CutParts(text, 0, []), CutEnd(text, 0);
    CutReassembles(text, 0, [], cut, last);
    if last < |text| {
      AddTail(text, cut, last, Text(text[last..], PartKey(true, |cut|)));
    } else {
      assert text[..last] == text;
    }
    if text == "" {
      assert Reassemble([Text(text, PartKey(true, 0))]) == Reassemble([]) + text;
    }
  }

  /**
   * `parseInlineFormatting`: the text cut at each inline-code span, found
   * leftmost first, exactly as `Inline` says. Put back together the parts
   * give the text; a non-empty text gives well-formed parts (numbered
   * keys, nothing empty, no span left in a text part, no backtick in a
   * span); the empty text gives one empty text part.
   */
  method ParseInlineFormatting(text: string) returns (parts: seq<Part>)
    ensures |parts| >= 1
    ensures Reassemble(parts) == text
    ensures text != "" ==> WellFormed(parts)
    ensures text == "" ==> parts == [Text("", PartKey(true, 0))]
    ensures parts == Inline(text)
  {
    var lastIndex;
    parts, lastIndex := CutAtSpans(text);
    var keyCounter := |parts|;
    if lastIndex == |text| {
      assert text[..lastIndex] == text;
    }
    if lastIndex < |text| {
      var part := Text(text[lastIndex..], PartKey(true, keyCounter));
      AddTail(text, parts, lastIndex, part);
      parts := parts + [part];
      keyCounter := keyCounter + 1;
    }
    if |parts| == 0 {
      assert lastIndex == 0 && text == "";
      parts := [Text(text, PartKey(true, 0))];
    }
  }

  /**
   * The loop of `parseInlineFormatting`: a text part for what precedes
   * each span, then the span, until no span is left after `lastIndex`.
   */
  method CutAtSpans(text: string) returns (parts: seq<Part>, lastIndex: nat)
    ensures lastIndex <= |text| && NoSpanFrom(text, lastIndex, |text|)
    ensures parts == [] <==> lastIndex == 0
    ensures Reassemble(parts) == text[..lastIndex] && WellFormed(parts)
    ensures parts == CutParts(text, 0, []) && lastIndex == CutEnd(text, 0)
  {
    parts := [];
    lastIndex := 0;
    var keyCounter := 0;
    var found := FindCode(text, 0);
    while found.Some?
      invariant 0 <= lastIndex <= |text|
      invariant found == FindCode(text, lastIndex)
      invariant parts == [] <==> lastIndex == 0
      invariant keyCounter == |parts|
      invariant Reassemble(parts) == text[..lastIndex]
      invariant WellFormed(parts)
      invariant CutParts(text, lastIndex, parts) == CutParts(text, 0, [])
      invariant CutEnd(text, lastIndex) == CutEnd(text, 0)
      decreases |text| - lastIndex
    {
      ghost var parts0, lastIndex0, m := parts, lastIndex, found.value;
      parts, keyCounter, lastIndex := PushSpan(text, parts, keyCounter, lastIndex, found.value.0, found.value.1);
      CutStep(text, lastIndex0, parts0, m, lastIndex, parts);
      found := FindCode(text, lastIndex);
    }
    CutStop(text, lastIndex, parts);
  }

  /**
   * The body of that loop for the match from `index` to the backtick at
   * `close`: the text since `lastIndex0`, if any, then the span.
   */
  method PushSpan(text: string, parts0: seq<Part>, keyCounter0: nat, lastIndex0: nat, index: nat, close: nat)
    returns (parts: seq<Part>, keyCounter: nat, lastIndex: nat)
    requires lastIndex0 <= index && CodeAt(text, index, close) && NoSpanFrom(text, lastIndex0, index)
    requires keyCounter0 == |parts0| && Reassemble(parts0) == text[..lastIndex0] && WellFormed(parts0)
    ensures lastIndex == close + 1 && lastIndex0 < lastIndex <= |text|
    ensures parts != [] && keyCounter == |parts|
    ensures Reassemble(parts) == text[..lastIndex] && WellFormed(parts)
    ensures parts == parts0 + SpanParts(text, lastIndex0, keyCounter0, index, close)
  {
    parts, keyCounter := parts0, keyCounter0;
    ghost var gap: seq<Part> := [];
    if index > lastIndex0 {
      var part := Text(text[lastIndex0..index], PartKey(true, keyCounter));
      parts := parts + [part];
      keyCounter := keyCounter + 1;
      gap := [part];
    }
    var part := InlineCode(text[index + 1..close], PartKey(false, keyCounter));
    assert parts == parts0 + gap;
    parts := parts + [part];
    keyCounter := keyCounter + 1;
    lastIndex := close + 1;
    Assoc(parts0, gap, [part]);
    SpanPartsShape(text, lastIndex0, keyCounter0, index, close);
    assert SpanParts(text, lastIndex0, keyCounter0, index, close) == gap + [part];
    PushSpanParts(text, parts0, lastIndex0, index, close, parts, lastIndex);
  }

  /** The parts of one match keep the parts well formed and reassembling to the text up to the span's closing backtick. */
  lemma {:induction false} PushSpanParts(s: string, parts0: seq<Part>, k: nat, p: nat, q: nat, parts: seq<Part>, k': nat)
    requires k <= p && CodeAt(s, p, q) && NoSpanFrom(s, k, p)
    requires Reassemble(parts0) == s[..k] && WellFormed(parts0)
    requires parts == parts0 + SpanParts(s, k, |parts0|, p, q) && k' == q + 1
    ensures Reassemble(parts) == s[..k'] && WellFormed(parts)
  {
    if p > k {
      PushGapAndSpan(s, parts0, k, p, q, parts, k');
    } else {
      PushSpanOnly(s, parts0, k, p, q, parts, k');
    }
  }

  lemma {:induction false} PushGapAndSpan(s: string, parts0: seq<Part>, k: nat, p: nat, q: nat, parts: seq<Part>, k': nat)
    requires k < p && CodeAt(s, p, q) && NoSpanFrom(s, k, p)
    requires Reassemble(parts0) == s[..k] && WellFormed(parts0)
    requires parts == parts0 + SpanParts(s, k, |parts0|, p, q) && k' == q + 1
    ensures Reassemble(parts) == s[..k']
    ensures WellFormed(parts)
  {
    var n := |parts0|;
    var t := Text(s[k..p], PartKey(true, n));
    var code := InlineCode(s[p + 1..q], PartKey(false, n + 1));
    SpanPartsShape(s, k, n, p, q);
    var mid := parts0 + [t];
    Assoc(parts0, [t], [code]);
    assert parts == mid + [code];
    AddText(s, parts0, k, p, t);
    AddSpan(s, mid, p, q, code);
  }

  lemma {:induction false} PushSpanOnly(s: string, parts0: seq<Part>, k: nat, p: nat, q: nat, parts: seq<Part>, k': nat)
    requires k == p && CodeAt(s, p, q)
    requires Reassemble(parts0) == s[..k] && WellFormed(parts0)
    requires parts == parts0 + SpanParts(s, k, |parts0|, p, q) && k' == q + 1
    ensures Reassemble(parts) == s[..k'] && WellFormed(parts)
  {
    var n := |parts0|;
    SpanPartsShape(s, k, n, p, q);
    AddSpan(s, parts0, p, q, InlineCode(s[p + 1..q], PartKey(false, n)));
  }

  /** The gap's text part, if there is a gap, then the span's part. */
  lemma SpanPartsShape(s: string, k: nat, n: nat, p: nat, q: nat)
    requires k <= p && p < q < |s|
    ensures p > k ==> SpanParts(s, k, n, p, q) == [Text(s[k..p], PartKey(true, n))] + [InlineCode(s[p + 1..q], PartKey(false, n + 1))]
    ensures p == k ==> SpanParts(s, k, n, p, q) == [InlineCode(s[p + 1..q], PartKey(false, n))]
  {
    if p == k {
      assert [] + [InlineCode(s[p + 1..q], PartKey(false, n))] == [InlineCode(s[p + 1..q], PartKey(false, n))];
    }
  }

  /** Appending the text from `i` up to `j`, where no span starts, keeps the parts well formed and reassembling to the text so far. */
  lemma AddText(s: string, parts: seq<Part>, i: nat, j: nat, part: Part)
    requires i < j <= |s| && NoSpanFrom(s, i, j)
    requires Reassemble(parts) == s[..i] && WellFormed(parts)
    requires part == Text(s[i..j], PartKey(true, |parts|))
    ensures Reassemble(parts + [part]) == s[..j] && WellFormed(parts + [part])
  {
    TextPart(s, i, j, |parts|);
    WellFormedSnoc(parts, part);
    ReassembleSnoc(parts, part);
  }

  /** Appending the rest of the text, where no span starts, completes the parts. */
  lemma AddTail(s: string, parts: seq<Part>, i: nat, part: Part)
    requires i < |s| && NoSpanFrom(s, i, |s|)
    requires Reassemble(parts) == s[..i] && WellFormed(parts)
    requires part == Text(s[i..], PartKey(true, |parts|))
    ensures Reassemble(parts + [part]) == s && WellFormed(parts + [part])
  {
    assert s[i..|s|] == s[i..] && s[..|s|] == s;
    AddText(s, parts, i, |s|, part);
  }

  /** Appending a span keeps the parts well formed and reassembling to the text up to its closing backtick. */
  lemma AddSpan(s: string, parts: seq<Part>, p: nat, q: nat, part: Part)
    requires CodeAt(s, p, q)
    requires Reassemble(parts) == s[..p] && WellFormed(parts)
    requires part == InlineCode(s[p + 1..q], PartKey(false, |parts|))
    ensures Reassemble(parts + [part]) == s[..q + 1] && WellFormed(parts + [part])
  {
    SpanPart(s, p, q, |parts|);
    WellFormedSnoc(parts, part);
    ReassembleSnoc(parts, part);
  }

  /** The text between two spans, or after the last, becomes a well-formed text part. */
  lemma TextPart(s: string, i: nat, j: nat, k: nat)
    requires i < j <= |s|
    requires NoSpanFrom(s, i, j)
    ensures PartOk(Text(s[i..j], PartKey(true, k)), k)
    ensures s[..i] + s[i..j] == s[..j]
  {
    NoSpanFromMeans(s, i, j);
    NoCodeInSlice(s, i, j);
  }

  /** A span becomes a well-formed inline-code part that stands for exactly its source. */
  lemma SpanPart(s: string, p: nat, q: nat, k: nat)
    requires CodeAt(s, p, q)
    ensures PartOk(InlineCode(s[p + 1..q], PartKey(false, k)), k)
    ensures s[..p] + Source(InlineCode(s[p + 1..q], PartKey(false, k))) == s[..q + 1]
  {
    var code := s[p + 1..q];
    forall i | 0 <= i < |code| ensures code[i] != '`' {
      assert code[i] == s[p + 1 + i];
    }
    SpanJoin(s, p, q);
  }
}
