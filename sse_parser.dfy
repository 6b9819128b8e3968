/**
 * Parsing of an event-stream payload into `{event, data}` frames
 * (src/service/SeeService.js, `parseSSELines`).
 *
 * This is a simplified subset of the event-stream format of section 9.2
 * of the WHATWG HTML Living Standard: blocks are separated by runs of two
 * or more newlines, only `event:` and `data:` lines are read, the text
 * after the colon is kept as it is for `data:` and trimmed for `event:`.
 */
module SeeService {
  import opened Wrappers
  import opened Strings

  datatype Frame = Frame(event: string, data: string)

  /** Index just past the run of '\n' that starts at `i`. */
  function NewlineRunEnd(s: string, i: nat): (j: nat)
    requires i <= |s|
    ensures i <= j <= |s|
    ensures forall k :: i <= k < j ==> s[k] == '\n'
    ensures j == |s| || s[j] != '\n'
    decreases |s| - i
  {
    if i < |s| && s[i] == '\n' then NewlineRunEnd(s, i + 1) else i
  }

  /** `String(raw).split(/\n\n+/)`: a cut at every run of two or more newlines. */
  function SplitBlocks(s: string): (blocks: seq<string>)
    ensures |blocks| >= 1
    ensures forall k :: 0 <= k < |blocks| ==> !HasDoubleNewline(blocks[k])
    decreases |s|
  {
    var i := IndexOfDoubleNewline(s);
    if i == -1 then [s]
    else
      assert forall k :: DoubleNewlineAt(s[..i], k) ==> DoubleNewlineAt(s, k);
      [s[..i]] + SplitBlocks(s[NewlineRunEnd(s, i)..])
  }

  /** The event name (null until an `event:` line) and the data read so far in one block. */
  datatype Accumulator = Accumulator(name: Option<string>, data: string)

  predicate IsEventLine(line: string) { StartsWith(line, "event:") }

  predicate IsDataLine(line: string) { StartsWith(line, "data:") }

  /** The name an `event:` line sets: what follows the colon, trimmed. */
  function EventLineName(line: string): string
    requires IsEventLine(line)
  {
    Trim(line[6..])
  }

  /** One line of a block: `event:` replaces the name, `data:` appends, anything else is ignored. */
  function ReadLine(acc: Accumulator, line: string): Accumulator {
    if IsEventLine(line) then acc.(name := Some(EventLineName(line)))
    else if IsDataLine(line) then acc.(data := acc.data + (if acc.data != "" then "\n" else "") + line[5..])
    else acc
  }

  /** The accumulator after reading `lines` in order. */
  function ReadLines(lines: seq<string>): Accumulator {
    if lines == [] then Accumulator(None, "")
    else ReadLine(ReadLines(lines[..|lines| - 1]), lines[|lines| - 1])
  }

  /** The frame one block yields, if any. */
  function ParseBlock(block: string): (f: Option<Frame>)
    ensures f.Some? ==> f.value.event != "" || f.value.data != ""
  {
    // `!block.trim()`, read as "nothing is left after the leading white space" (`TrimEmpty`)
    if TrimStart(block) == [] then None
    else
      var acc := ReadLines(Split(block, '\n'));
      if (acc.name.Some? && acc.name.value != "") || acc.data != "" then
        Some(Frame(acc.name.GetOr("message"), acc.data))
      else None
  }

  /** The values of the present entries, in order. */
  function Present(opts: seq<Option<Frame>>): seq<Frame> {
    if opts == [] then []
    else
      Present(opts[..|opts| - 1])
        + match opts[|opts| - 1] case Some(f) => [f] case None => []
  }

  /** What each block yields, position by position. */
  function ParseBlocks(blocks: seq<string>): (opts: seq<Option<Frame>>)
    ensures |opts| == |blocks|
  {
    seq(|blocks|, k requires 0 <= k < |blocks| => ParseBlock(blocks[k]))
  }

  /** The frames a sequence of blocks yields, in block order. */
  function FramesOf(blocks: seq<string>): seq<Frame> {
    Present(ParseBlocks(blocks))
  }

  /** What `parseSSELines(raw)` returns. */
  function Frames(raw: string): seq<Frame> {
    FramesOf(SplitBlocks(raw))
  }

  /** The line loop of `parseSSELines` for one block. */
  method ReadBlockLines(lines: seq<string>) returns (name: Option<string>, data: string)
    ensures Accumulator(name, data) == ReadLines(lines)
  {
    name, data := None, "";
    for l := 0 to |lines|
      invariant Accumulator(name, data) == ReadLines(lines[..l])
    {
      var line := lines[l];
      assert lines[..l + 1][..l] == lines[..l];
      if StartsWith(line, "event:") {
        name := Some(EventLineName(line));
      } else if StartsWith(line, "data:") {
        data := data + (if data != "" then "\n" else "") + line[5..];
      }
    }
    assert lines[..|lines|] == lines;
  }

  /** `parseSSELines`: the block loop of the source, with the line loop above. */
  method ParseSseLines(raw: string) returns (frames: seq<Frame>)
    ensures frames == Frames(raw)
  {
    var blocks := SplitBlocks(raw);
    frames := [];
    for b := 0 to |blocks|
      invariant frames == Present(ParseBlocks(blocks)[..b])
    {
      var block := blocks[b];
      PresentStep(ParseBlocks(blocks), b);
      assert ParseBlocks(blocks)[b] == ParseBlock(block);
      TrimEmpty(block);
      if Trim(block) == "" {
        continue;
      }
      var name, data := ReadBlockLines(Split(block, '\n'));
      if (name.Some? && name.value != "") || data != "" {
        frames := frames + [Frame(name.GetOr("message"), data)];
      }
    }
    assert ParseBlocks(blocks)[..|blocks|] == ParseBlocks(blocks);
  }

  /** One more entry of a prefix adds its value, if it has one. */
  lemma PresentStep(opts: seq<Option<Frame>>, b: nat)
    requires b < |opts|
    ensures Present(opts[..b + 1]) == Present(opts[..b]) + (if opts[b].Some? then [opts[b].value] else [])
  {
    assert opts[..b + 1][..b] == opts[..b];
  }

  // ---------------------------------------------------------------------
  // Properties of the parser

  lemma {:induction false} PresentAtMost(opts: seq<Option<Frame>>)
    ensures |Present(opts)| <= |opts|
  {
    if opts != [] {
      PresentAtMost(opts[..|opts| - 1]);
    }
  }

  /** There are never more frames than blocks. */
  lemma FramesAtMostBlocks(blocks: seq<string>)
    ensures |FramesOf(blocks)| <= |blocks|
  {
    PresentAtMost(ParseBlocks(blocks));
  }

  lemma {:induction false} PresentAppend(a: seq<Option<Frame>>, b: seq<Option<Frame>>)
    ensures Present(a + b) == Present(a) + Present(b)
    decreases |b|
  {
    if b == [] {
      assert a + b == a;
    } else {
      assert (a + b)[..|a + b| - 1] == a + b[..|b| - 1];
      PresentAppend(a, b[..|b| - 1]);
    }
  }

  /** Frames come out in block order: the frames of a concatenation of blocks are the concatenation of their frames. */
  lemma FramesOfAppend(a: seq<string>, b: seq<string>)
    ensures FramesOf(a + b) == FramesOf(a) + FramesOf(b)
  {
    ParseBlocksAppend(a, b);
    PresentAppend(ParseBlocks(a), ParseBlocks(b));
  }

  lemma ParseBlocksAppend(a: seq<string>, b: seq<string>)
    ensures ParseBlocks(a + b) == ParseBlocks(a) + ParseBlocks(b)
  {
    var l, r := ParseBlocks(a + b), ParseBlocks(a) + ParseBlocks(b);
    forall k | 0 <= k < |l| ensures l[k] == r[k] {
      if k < |a| {
        assert (a + b)[k] == a[k];
      } else {
        assert (a + b)[k] == b[k - |a|];
      }
    }
  }

  /** The name an `event:` line sets, looked up from the end: only `event:` lines matter. */
  function EventName(lines: seq<string>): Option<string> {
    if lines == [] then None
    else if IsEventLine(lines[|lines| - 1]) then Some(EventLineName(lines[|lines| - 1]))
    else EventName(lines[..|lines| - 1])
  }

  lemma {:induction false} NameIsEventName(lines: seq<string>)
    ensures ReadLines(lines).name == EventName(lines)
  {
    if lines != [] {
      NameIsEventName(lines[..|lines| - 1]);
    }
  }

  /** The event name stays null exactly when the block has no `event:` line. */
  lemma {:induction false} NameSetIffEventLine(lines: seq<string>)
    ensures ReadLines(lines).name.Some? <==> exists k :: 0 <= k < |lines| && IsEventLine(lines[k])
  {
    NameIsEventName(lines);
    EventNameSetIff(lines);
  }

  lemma {:induction false} EventNameSetIff(lines: seq<string>)
    ensures EventName(lines).Some? <==> exists k :: 0 <= k < |lines| && IsEventLine(lines[k])
  {
    if lines != [] {
      var n := |lines| - 1;
      var init := lines[..n];
      EventNameSetIff(init);
      if !IsEventLine(lines[n]) {
        if exists k :: 0 <= k < |lines| && IsEventLine(lines[k]) {
          var k :| 0 <= k < |lines| && IsEventLine(lines[k]);
          assert k < n && init[k] == lines[k];
        }
        if exists k :: 0 <= k < |init| && IsEventLine(init[k]) {
          var k :| 0 <= k < |init| && IsEventLine(init[k]);
          assert init[k] == lines[k];
        }
      }
    }
  }

  /** The event name is that of the LAST `event:` line, trimmed. */
  lemma NameIsLastEventLine(lines: seq<string>, k: nat)
    requires k < |lines| && IsEventLine(lines[k])
    requires forall j :: k < j < |lines| ==> !IsEventLine(lines[j])
    ensures ReadLines(lines).name == Some(EventLineName(lines[k]))
  {
    NameIsEventName(lines);
    EventNameIsLast(lines, k);
  }

  lemma {:induction false} EventNameIsLast(lines: seq<string>, k: nat)
    requires k < |lines| && IsEventLine(lines[k])
    requires forall j :: k < j < |lines| ==> !IsEventLine(lines[j])
    ensures EventName(lines) == Some(EventLineName(lines[k]))
    decreases |lines|
  {
    if k + 1 < |lines| {
      EventNameSkips(lines);
      LaterLinesOfInit(lines, k);
      EventNameIsLast(lines[..|lines| - 1], k);
    } else {
      EventNameTakes(lines, k);
    }
  }

  /** A last line that is an `event:` line gives the name. */
  lemma EventNameTakes(lines: seq<string>, k: nat)
    requires k + 1 == |lines| && IsEventLine(lines[k])
    ensures EventName(lines) == Some(EventLineName(lines[k]))
  {
  }

  /** A last line that is not an `event:` line does not change the name. */
  lemma EventNameSkips(lines: seq<string>)
    requires lines != [] && !IsEventLine(lines[|lines| - 1])
    ensures EventName(lines) == EventName(lines[..|lines| - 1])
  {
  }

  /** Dropping the last line keeps the `event:` line at `k` and no later one. */
  lemma LaterLinesOfInit(lines: seq<string>, k: nat)
    requires k + 1 < |lines| && IsEventLine(lines[k])
    requires forall j :: k < j < |lines| ==> !IsEventLine(lines[j])
    ensures var init := lines[..|lines| - 1];
      && !IsEventLine(lines[|lines| - 1])
      && init[k] == lines[k]
      && forall j :: k < j < |init| ==> !IsEventLine(init[j])
  {
    var init := lines[..|lines| - 1];
    forall j | k < j < |init| ensures !IsEventLine(init[j]) {
      assert init[j] == lines[j];
    }
  }

  /** The payload (text after `data:`) of every data line, in order. */
  function Payloads(lines: seq<string>): seq<string> {
    if lines == [] then []
    else
      var last := lines[|lines| - 1];
      Payloads(lines[..|lines| - 1])
        + if !IsEventLine(last) && IsDataLine(last) then [last[5..]] else []
  }

  /** Leading empty payloads are absorbed: nothing precedes them, so no separator is added. */
  function DropLeadingEmpty(payloads: seq<string>): (r: seq<string>)
    ensures r == [] || r[0] != ""
  {
    if payloads != [] && payloads[0] == "" then DropLeadingEmpty(payloads[1..]) else payloads
  }

  lemma {:induction false} DropLeadingEmptyAppend(ps: seq<string>, p: string)
    ensures DropLeadingEmpty(ps + [p])
         == if DropLeadingEmpty(ps) == [] then DropLeadingEmpty([p]) else DropLeadingEmpty(ps) + [p]
  {
    if ps != [] && ps[0] == "" {
      assert (ps + [p])[1..] == ps[1..] + [p];
      DropLeadingEmptyAppend(ps[1..], p);
    } else if ps == [] {
      assert ps + [p] == [p];
    }
  }

  /**
   * The data of a block is its payloads joined with "\n", after the
   * leading empty ones: a separator is added only once the data is non-empty.
   */
  lemma {:induction false} DataIsJoinedPayloads(lines: seq<string>)
    ensures ReadLines(lines).data == Join(DropLeadingEmpty(Payloads(lines)), "\n")
  {
    if lines != [] {
      var init, last := lines[..|lines| - 1], lines[|lines| - 1];
      DataIsJoinedPayloads(init);
      assert ReadLines(lines) == ReadLine(ReadLines(init), last);
      if !IsEventLine(last) && IsDataLine(last) {
        var ps, p := Payloads(init), last[5..];
        assert Payloads(lines) == ps + [p];
        DropLeadingEmptyAppend(ps, p);
        var d := DropLeadingEmpty(ps);
        if d != [] {
          JoinAppend(d, p, "\n");
          assert Join(d, "\n") != "" by {
            if |d| > 1 { assert Join(d, "\n") == d[0] + "\n" + Join(d[1..], "\n"); }
          }
        } else if p == "" {
          assert DropLeadingEmpty([p]) == DropLeadingEmpty([]);
        } else {
          assert DropLeadingEmpty([p]) == [p];
        }
      } else {
        assert Payloads(lines) == Payloads(init);
      }
    }
  }

  /**
   * A blank block yields nothing. Otherwise a frame comes out exactly when
   * the block names a non-empty event or carries some data, and a block
   * without an `event:` line is named "message".
   */
  lemma BlockFrame(block: string)
    ensures Trim(block) == "" ==> ParseBlock(block).None?
    ensures var lines := Split(block, '\n');
      Trim(block) != "" ==>
        (ParseBlock(block).Some? <==>
           (EventName(lines).Some? && EventName(lines).value != "")
           || Join(DropLeadingEmpty(Payloads(lines)), "\n") != "")
    ensures var lines := Split(block, '\n');
      ParseBlock(block).Some? && (forall k :: 0 <= k < |lines| ==> !IsEventLine(lines[k]))
      ==> ParseBlock(block).value.event == "message"
  {
    var lines := Split(block, '\n');
    TrimEmpty(block);
    NameIsEventName(lines);
    DataIsJoinedPayloads(lines);
    NameSetIffEventLine(lines);
  }

  predicate IsFieldLine(line: string) { IsEventLine(line) || IsDataLine(line) }

  /** The lines of a block that are `event:` or `data:` lines. */
  function FieldLines(lines: seq<string>): seq<string> {
    if lines == [] then []
    else
      var last := lines[|lines| - 1];
      FieldLines(lines[..|lines| - 1]) + if IsFieldLine(last) then [last] else []
  }

  /** Lines that are neither `event:` nor `data:` lines do not affect the result. */
  lemma {:induction false} OtherLinesIgnored(lines: seq<string>)
    ensures ReadLines(FieldLines(lines)) == ReadLines(lines)
  {
    if lines != [] {
      var init, last := lines[..|lines| - 1], lines[|lines| - 1];
      OtherLinesIgnored(init);
      assert ReadLines(lines) == ReadLine(ReadLines(init), last);
      if IsFieldLine(last) {
        var f := FieldLines(init) + [last];
        assert FieldLines(lines) == f;
        assert f[..|f| - 1] == FieldLines(init);
        assert ReadLines(f) == ReadLine(ReadLines(FieldLines(init)), last);
      } else {
        assert FieldLines(lines) == FieldLines(init);
        assert ReadLine(ReadLines(init), last) == ReadLines(init);
      }
    }
  }

  // ---------------------------------------------------------------------
  // Encoding: the wire form of a frame, and the round trip through the parser

  /** One `data:` line per line of the payload. */
  function DataLines(payloads: seq<string>): (lines: seq<string>)
    ensures |lines| == |payloads|
    ensures forall k :: 0 <= k < |lines| ==> lines[k] == "data:" + payloads[k]
  {
    seq(|payloads|, k requires 0 <= k < |payloads| => "data:" + payloads[k])
  }

  /** The block a server writes for a frame: an `event:` line, then the data as `data:` lines. */
  function EncodeFrame(f: Frame): string {
    "event:" + f.event + "\n" + Join(DataLines(Split(f.data, '\n')), "\n")
  }

  /**
   * Frames the encoding carries faithfully: a non-empty event name that
   * survives trimming, on one line, and data that does not start with a
   * newline (a leading empty `data:` line would be absorbed).
   */
  predicate Encodable(f: Frame) {
    && f.event != ""
    && Trim(f.event) == f.event
    && '\n' !in f.event
    && (f.data == "" || f.data[0] != '\n')
  }

  lemma {:induction false} PayloadsOfEncoded(header: string, ps: seq<string>)
    requires IsEventLine(header)
    ensures Payloads([header] + DataLines(ps)) == ps
    decreases |ps|
  {
    var lines := [header] + DataLines(ps);
    if ps == [] {
      assert lines == [header];
      assert lines[..0] == [];
    } else {
      var n := |ps|;
      assert DataLines(ps)[..n - 1] == DataLines(ps[..n - 1]);
      assert lines[..|lines| - 1] == [header] + DataLines(ps[..n - 1]);
      PayloadsOfEncoded(header, ps[..n - 1]);
      var last := lines[|lines| - 1];
      assert last == "data:" + ps[n - 1];
      assert last[..5] == "data:" && last[0] == 'd';
      assert !IsEventLine(last) && IsDataLine(last);
      assert last[5..] == ps[n - 1];
      assert Payloads(lines) == Payloads([header] + DataLines(ps[..n - 1])) + [ps[n - 1]];
      assert ps[..n - 1] + [ps[n - 1]] == ps;
    }
  }

  lemma JoinOfDataLinesHasNoNewline(ps: seq<string>)
    requires forall k :: 0 <= k < |ps| ==> '\n' !in ps[k]
    ensures forall k :: 0 <= k < |DataLines(ps)| ==> '\n' !in DataLines(ps)[k]
  {
    forall k | 0 <= k < |ps| ensures '\n' !in DataLines(ps)[k] {
      assert DataLines(ps)[k] == "data:" + ps[k];
    }
  }

  /** The lines of an encoded frame: the `event:` line, then one `data:` line per payload line. */
  lemma EncodedLines(f: Frame)
    requires '\n' !in f.event
    ensures Split(EncodeFrame(f), '\n') == ["event:" + f.event] + DataLines(Split(f.data, '\n'))
  {
    var header := "event:" + f.event;
    var ps := Split(f.data, '\n');
    var dl := DataLines(ps);
    assert EncodeFrame(f) == header + ['\n'] + Join(dl, "\n");
    assert '\n' !in header;
    SplitFirst(header, Join(dl, "\n"), '\n');
    JoinOfDataLinesHasNoNewline(ps);
    SplitJoin(dl, '\n');
  }

  /** `data:` lines never change the event name. */
  lemma {:induction false} DataLinesKeepName(pre: seq<string>, ps: seq<string>)
    ensures ReadLines(pre + DataLines(ps)).name == ReadLines(pre).name
    decreases |ps|
  {
    if ps == [] {
      assert pre + DataLines(ps) == pre;
    } else {
      var n := |ps|;
      var lines := pre + DataLines(ps);
      DataLinesSnoc(pre, ps);
      DataLinesKeepName(pre, ps[..n - 1]);
      DataLineKeepsName(ReadLines(pre + DataLines(ps[..n - 1])), ps[n - 1]);
    }
  }

  /** The lines before the last `data:` line, and that line. */
  lemma DataLinesSnoc(pre: seq<string>, ps: seq<string>)
    requires ps != []
    ensures var lines := pre + DataLines(ps);
      lines[..|lines| - 1] == pre + DataLines(ps[..|ps| - 1]) && lines[|lines| - 1] == "data:" + ps[|ps| - 1]
  {
    assert DataLines(ps)[..|ps| - 1] == DataLines(ps[..|ps| - 1]);
  }

  /** A `data:` line leaves the name alone. */
  lemma DataLineKeepsName(acc: Accumulator, p: string)
    ensures ReadLine(acc, "data:" + p).name == acc.name
  {
    var line := "data:" + p;
    assert line[0] == 'd';
    assert !IsEventLine(line);
  }

  lemma EncodedName(f: Frame)
    requires Encodable(f)
    ensures ReadLines(["event:" + f.event] + DataLines(Split(f.data, '\n'))).name == Some(f.event)
  {
    var header := "event:" + f.event;
    DataLinesKeepName([header], Split(f.data, '\n'));
    var none: seq<string> := [];
    assert [header][..0] == none;
    assert header[..6] == "event:" && header[6..] == f.event;
    assert ReadLines([header]).name == Some(Trim(f.event));
  }

  lemma FirstPieceNonEmpty(s: string)
    requires s != "" && s[0] != '\n'
    ensures Split(s, '\n')[0] != ""
  {
    var i := IndexOfChar(s, '\n');
    assert i > 0;
    if i < |s| {
      assert Split(s, '\n')[0] == s[..i];
    }
  }

  /** Without leading empty payloads, the data is the payloads joined. */
  lemma DataOfPayloads(data: string)
    requires data == "" || data[0] != '\n'
    ensures Join(DropLeadingEmpty(Split(data, '\n')), "\n") == data
  {
    var ps := Split(data, '\n');
    JoinSplit(data, '\n');
    if data == "" {
      assert ps == [""];
      assert DropLeadingEmpty(ps) == DropLeadingEmpty(ps[1..]);
      assert ps[1..] == [];
    } else {
      FirstPieceNonEmpty(data);
      assert DropLeadingEmpty(ps) == ps;
    }
  }

  lemma EncodedData(f: Frame)
    requires Encodable(f)
    ensures ReadLines(["event:" + f.event] + DataLines(Split(f.data, '\n'))).data == f.data
  {
    var ps := Split(f.data, '\n');
    var header := "event:" + f.event;
    DataIsJoinedPayloads([header] + DataLines(ps));
    assert IsEventLine(header) by { assert header[..6] == "event:"; }
    PayloadsOfEncoded(header, ps);
    DataOfPayloads(f.data);
  }

  lemma EncodedNotBlank(f: Frame)
    ensures Trim(EncodeFrame(f)) != ""
  {
    var rest := f.event + "\n" + Join(DataLines(Split(f.data, '\n')), "\n");
    assert EncodeFrame(f) == "event:" + rest;
    TrimNotEmpty(EncodeFrame(f));
  }

  /** A block that is not blank yields the frame its lines accumulate. */
  lemma ParseBlockOfLines(block: string, lines: seq<string>, f: Frame)
    requires Trim(block) != ""
    requires Split(block, '\n') == lines
    requires ReadLines(lines) == Accumulator(Some(f.event), f.data)
    requires f.event != ""
    ensures ParseBlock(block) == Some(f)
  {
  }

  /** Decoding the encoding of a frame gives the frame back. */
  lemma FrameRoundTrip(f: Frame)
    requires Encodable(f)
    ensures ParseBlock(EncodeFrame(f)) == Some(f)
  {
    var lines := ["event:" + f.event] + DataLines(Split(f.data, '\n'));
    EncodedLines(f);
    EncodedName(f);
    EncodedData(f);
    EncodedNotBlank(f);
    ParseBlockOfLines(EncodeFrame(f), lines, f);
  }

  /** Each `data:` line is a non-empty single line. */
  lemma DataLinesAreLines(ps: seq<string>)
    requires forall k :: 0 <= k < |ps| ==> '\n' !in ps[k]
    ensures forall k :: 0 <= k < |DataLines(ps)| ==> DataLines(ps)[k] != [] && '\n' !in DataLines(ps)[k]
  {
    forall k | 0 <= k < |ps| ensures DataLines(ps)[k] != [] && '\n' !in DataLines(ps)[k] {
      assert DataLines(ps)[k] == "data:" + ps[k];
    }
  }

  /** The encoding of a frame is its lines joined with "\n". */
  lemma EncodedIsJoinedLines(f: Frame)
    ensures EncodeFrame(f) == Join(["event:" + f.event] + DataLines(Split(f.data, '\n')), "\n")
  {
    var lines := ["event:" + f.event] + DataLines(Split(f.data, '\n'));
    assert lines[1..] == DataLines(Split(f.data, '\n'));
  }

  /** A header line followed by single-line payloads, joined, is a block the splitter keeps whole. */
  lemma HeaderAndDataIsBlock(header: string, ps: seq<string>)
    requires header != [] && '\n' !in header
    requires forall k :: 0 <= k < |ps| ==> '\n' !in ps[k]
    ensures var b := Join([header] + DataLines(ps), "\n");
            b != [] && b[0] != '\n' && b[|b| - 1] != '\n' && !HasDoubleNewline(b)
  {
    var dl := DataLines(ps);
    DataLinesAreLines(ps);
    var lines := [header] + dl;
    assert forall k :: 0 < k < |lines| ==> lines[k] == dl[k - 1];
    JoinOfLinesIsBlock(lines);
  }

  /** An `event:` line for a one-line name is one line. */
  lemma HeaderHasNoNewline(event: string)
    requires '\n' !in event
    ensures '\n' !in "event:" + event
  {
    var header := "event:" + event;
    forall i | 0 <= i < |header| ensures header[i] != '\n' {
      if i >= 6 { assert header[i] == event[i - 6]; }
    }
  }

  /** The encoding of a frame is a block the splitter keeps whole. */
  lemma EncodedFrameIsBlock(f: Frame)
    requires Encodable(f)
    ensures var b := EncodeFrame(f);
            b != [] && b[0] != '\n' && b[|b| - 1] != '\n' && !HasDoubleNewline(b)
  {
    EncodedIsJoinedLines(f);
    HeaderHasNoNewline(f.event);
    HeaderAndDataIsBlock("event:" + f.event, Split(f.data, '\n'));
  }

  /** Joining non-empty single lines with "\n" never yields a blank line or an edge newline. */
  lemma {:induction false} JoinOfLinesIsBlock(lines: seq<string>)
    requires lines != []
    requires forall k :: 0 <= k < |lines| ==> lines[k] != [] && '\n' !in lines[k]
    ensures var b := Join(lines, "\n");
            b != [] && b[0] != '\n' && b[|b| - 1] != '\n' && !HasDoubleNewline(b)
  {
    var b := Join(lines, "\n");
    if |lines| == 1 {
      assert b == lines[0];
      assert forall i :: 0 <= i < |b| ==> b[i] != '\n' by {
        forall i | 0 <= i < |b| ensures b[i] != '\n' { assert b[i] in lines[0]; }
      }
    } else {
      var head, rest := lines[0], Join(lines[1..], "\n");
      JoinOfLinesIsBlock(lines[1..]);
      assert b == head + "\n" + rest;
      assert forall i :: 0 <= i < |head| ==> b[i] == head[i] && head[i] != '\n' by {
        forall i | 0 <= i < |head| ensures b[i] == head[i] && head[i] != '\n' { assert head[i] in head; }
      }
      assert b[|head|] == '\n' && b[|head| + 1] == rest[0];
      forall i | 0 <= i < |b| ensures !DoubleNewlineAt(b, i) {
        if i > |head| {
          assert b[i] == rest[i - |head| - 1];
          if DoubleNewlineAt(b, i) { assert DoubleNewlineAt(rest, i - |head| - 1); }
        }
      }
    }
  }

  /** Blocks separated by a blank line. */
  predicate WellSeparated(blocks: seq<string>) {
    forall k :: 0 <= k < |blocks| ==>
      blocks[k] != [] && blocks[k][0] != '\n' && blocks[k][|blocks[k]| - 1] != '\n'
      && !HasDoubleNewline(blocks[k])
  }

  /** A join whose first piece is non-empty starts with that piece's first character. */
  lemma JoinFirstChar(blocks: seq<string>, sep: string)
    requires blocks != [] && blocks[0] != []
    ensures Join(blocks, sep) != [] && Join(blocks, sep)[0] == blocks[0][0]
  {
    if |blocks| > 1 {
      assert Join(blocks, sep) == blocks[0] + sep + Join(blocks[1..], sep);
    }
  }

  /** A blank line after a first block that does not end in a newline, followed by a non-newline, is one cut. */
  lemma FirstCut(b0: string, rest: string)
    requires b0 != [] && b0[|b0| - 1] != '\n' && !HasDoubleNewline(b0)
    requires rest != [] && rest[0] != '\n'
    ensures SplitBlocks(b0 + "\n\n" + rest) == [b0] + SplitBlocks(rest)
  {
    var s := b0 + "\n\n" + rest;
    assert forall k :: 0 <= k < |b0| ==> s[k] == b0[k];
    forall k | 0 <= k < |b0| ensures !DoubleNewlineAt(s, k) {
      if k < |b0| - 1 {
        assert !DoubleNewlineAt(b0, k);
      }
    }
    assert DoubleNewlineAt(s, |b0|);
    var i := IndexOfDoubleNewline(s);
    assert i == |b0|;
    assert s[..i] == b0;
    assert s[|b0| + 2] == rest[0];
    assert NewlineRunEnd(s, |b0| + 2) == |b0| + 2;
    assert NewlineRunEnd(s, |b0|) == |b0| + 2;
    assert s[|b0| + 2..] == rest;
  }

  /** Splitting blocks joined by "\n\n" gives the blocks back. */
  lemma {:induction false} SplitBlocksOfJoin(blocks: seq<string>)
    requires blocks != [] && WellSeparated(blocks)
    ensures SplitBlocks(Join(blocks, "\n\n")) == blocks
  {
    if |blocks| > 1 {
      var rest := Join(blocks[1..], "\n\n");
      assert Join(blocks, "\n\n") == blocks[0] + "\n\n" + rest;
      JoinFirstChar(blocks[1..], "\n\n");
      FirstCut(blocks[0], rest);
      SplitBlocksOfJoin(blocks[1..]);
    }
  }

  /** The blocks a server writes for a sequence of frames. */
  function EncodeFrames(fs: seq<Frame>): (blocks: seq<string>)
    ensures |blocks| == |fs|
  {
    seq(|fs|, k requires 0 <= k < |fs| => EncodeFrame(fs[k]))
  }

  /** When every entry is present, the present values are all of them. */
  lemma {:induction false} PresentOfAllSome(opts: seq<Option<Frame>>, fs: seq<Frame>)
    requires |opts| == |fs|
    requires forall k :: 0 <= k < |opts| ==> opts[k] == Some(fs[k])
    ensures Present(opts) == fs
  {
    if opts != [] {
      var n := |opts|;
      assert forall k :: 0 <= k < n - 1 ==> opts[..n - 1][k] == opts[k];
      PresentOfAllSome(opts[..n - 1], fs[..n - 1]);
      assert fs[..n - 1] + [fs[n - 1]] == fs;
    }
  }

  /**
   * A stream of encodable frames, written as blocks separated by a blank
   * line, parses back to exactly those frames, in order; no frames give
   * the empty text, which parses to none.
   */
  lemma {:induction false} StreamRoundTrip(fs: seq<Frame>)
    requires forall k :: 0 <= k < |fs| ==> Encodable(fs[k])
    ensures Frames(Join(EncodeFrames(fs), "\n\n")) == fs
  {
    if fs == [] {
      assert Frames("") == [];
      return;
    }
    var blocks := EncodeFrames(fs);
    forall k | 0 <= k < |blocks|
      ensures blocks[k] != [] && blocks[k][0] != '\n' && blocks[k][|blocks[k]| - 1] != '\n'
              && !HasDoubleNewline(blocks[k])
    {
      EncodedFrameIsBlock(fs[k]);
    }
    SplitBlocksOfJoin(blocks);
    var opts := ParseBlocks(blocks);
    forall k | 0 <= k < |fs| ensures opts[k] == Some(fs[k]) {
      FrameRoundTrip(fs[k]);
    }
    PresentOfAllSome(opts, fs);
  }
}
