/**
 * SRT text: the content `generate_srt` writes and the blocks
 * `parse_srt_file` reads back (`appp.py`). File reads and writes are not
 * modelled; both operate on the file's text.
 */
module Srt {
  import opened Wrappers
  import opened Text
  import opened Segments
  import opened SrtTime
  import opened TextFile

  // ----- encoding -----

  /** The newline after the index and the time line with its newline. */
  function TimeLine(start: string, end: string): string {
    "\n" + start + " --> " + end + "\n"
  }

  /** One block: index line, time line, text line, blank line. */
  function Block(index: nat, seg: Segment): string {
    NatToString(index) + TimeLine(FormatTime(seg.start), FormatTime(seg.end)) + seg.text + "\n\n"
  }

  /** Blocks for `segs`, numbered from `first` on. */
  function BlocksFrom(segs: seq<Segment>, first: nat): string {
    if segs == [] then "" else Block(first, segs[0]) + BlocksFrom(segs[1..], first + 1)
  }

  /** `generate_srt`'s file content: blocks numbered 1, 2, ... in input order. */
  function GenerateSrt(segs: seq<Segment>): string {
    BlocksFrom(segs, 1)
  }

  // ----- the block grammar of parse_srt_file -----

  /**
   * The four groups of one match of
   * `(\d+)\n(\d{2}:\d{2}:\d{2},\d{3}) --> (\d{2}:\d{2}:\d{2},\d{3})\n([\s\S]*?)(?=\n\n|\Z)`.
   */
  datatype RawBlock = RawBlock(index: string, start: string, end: string, text: string)

  /** Length of the leading run of digits (`\d+` is greedy and `\n` follows it). */
  function DigitRun(c: string): (n: nat)
    ensures n <= |c| && AllDigits(c[..n])
    ensures n < |c| ==> !IsDigit(c[n])
  {
    if |c| > 0 && IsDigit(c[0]) then 1 + DigitRun(c[1..]) else 0
  }

  predicate BlankLineAt(c: string, k: int) {
    0 <= k && k + 2 <= |c| && c[k] == '\n' && c[k + 1] == '\n'
  }

  /**
   * Length of the lazy `[\s\S]*?` group: the shortest prefix of `c`
   * followed by a blank line `\n\n` or by the end of the text.
   */
  function TextRun(c: string): (n: nat)
    ensures n <= |c|
    ensures n == |c| || BlankLineAt(c, n)
    ensures forall k :: 0 <= k < n ==> !BlankLineAt(c, k)
  {
    if |c| == 0 then 0
    else if BlankLineAt(c, 0) then 0
    else
      var n := 1 + TextRun(c[1..]);
      assert forall k :: 1 <= k < n ==> (BlankLineAt(c, k) <==> BlankLineAt(c[1..], k - 1));
      n
  }

  /** Width of the fixed part of a block header after the index digits. */
  const HeaderTail: nat := 31

  /** The header after `d` index digits: newline, time code, arrow, time code, newline. */
  predicate HeaderAt(c: string, d: nat) {
    && d + HeaderTail <= |c|
    && c[d] == '\n'
    && IsTimeCode(c[d + 1..d + 13])
    && c[d + 13..d + 18] == " --> "
    && IsTimeCode(c[d + 18..d + 30])
    && c[d + 30] == '\n'
  }

  /** The regular expression matched at the start of `c`, with the length it consumes. */
  function MatchAt(c: string): (m: Option<(RawBlock, nat)>)
    ensures m.Some? ==> HeaderTail < m.value.1 <= |c|
    ensures m.Some? ==> IsTimeCode(m.value.0.start) && IsTimeCode(m.value.0.end)
    ensures m.Some? ==> |m.value.0.index| > 0 && AllDigits(m.value.0.index)
  {
    var d := DigitRun(c);
    if d == 0 || !HeaderAt(c, d) then None
    else
      var t := d + HeaderTail;
      var n := TextRun(c[t..]);
      Some((RawBlock(c[..d], c[d + 1..d + 13], c[d + 18..d + 30], c[t..t + n]), t + n))
  }

  /**
   * `re.findall` with that expression: try to match at each position from
   * left to right; after a match resume where it ended, otherwise one
   * character further on.
   */
  function FindBlocks(c: string): (r: seq<RawBlock>)
    ensures forall i :: 0 <= i < |r| ==> IsTimeCode(r[i].start) && IsTimeCode(r[i].end)
    ensures forall i :: 0 <= i < |r| ==> |r[i].index| > 0 && AllDigits(r[i].index)
    decreases |c|
  {
    if c == [] then []
    else
      match MatchAt(c)
      case Some((b, e)) => [b] + FindBlocks(c[e..])
      case None => FindBlocks(c[1..])
  }

  // ----- parsing -----

  /** A subtitle record of `parse_srt_file`, with times in microseconds. */
  datatype Cue = Cue(start: int, end: int, text: string)

  /** One record: both time codes parsed, the text stripped with newlines made spaces. */
  function ToCue(b: RawBlock): Cue
    requires IsTimeCode(b.start) && IsTimeCode(b.end)
  {
    Cue(ParseTime(b.start), ParseTime(b.end), ReplaceChar(Strip(b.text), '\n', " "))
  }

  /** `parse_srt_file` on the file's content. */
  function ParseSrt(content: string): (cues: seq<Cue>)
    ensures forall i :: 0 <= i < |cues| ==> cues[i].start >= 0 && cues[i].end >= 0
    ensures forall i :: 0 <= i < |cues| ==> '\n' !in cues[i].text && IsStripped(cues[i].text)
  {
    var blocks := FindBlocks(content);
    var cues := seq(|blocks|, i requires 0 <= i < |blocks| => ToCue(blocks[i]));
    assert forall i :: 0 <= i < |cues| ==> IsStripped(cues[i].text) by {
      forall i | 0 <= i < |cues| ensures IsStripped(cues[i].text) {
        StripReplaceNewline(Strip(blocks[i].text));
      }
    }
    cues
  }

  /** Replacing newlines by spaces in a stripped text keeps it stripped. */
  lemma StripReplaceNewline(s: string)
    requires IsStripped(s)
    ensures IsStripped(ReplaceChar(s, '\n', " "))
  {
    if s != [] {
      assert s == [s[0]] + s[1..];
      ReplaceCharAppend([s[0]], s[1..], '\n', " ");
      var init := s[..|s| - 1];
      assert s == init + [s[|s| - 1]];
      ReplaceCharAppend(init, [s[|s| - 1]], '\n', " ");
    }
  }

  // ----- round trip -----

  /** `s` contains no blank line `\n\n`. */
  predicate NoBlankLine(s: string) {
    forall k :: 0 <= k < |s| ==> !BlankLineAt(s, k)
  }

  /**
   * What the lazy text group captures of a block's text: all of it, except
   * that a final newline merges into the blank line that ends the block.
   */
  function Captured(text: string): string {
    if |text| > 0 && text[|text| - 1] == '\n' then text[..|text| - 1] else text
  }

  /** The raw match `FindBlocks` yields for the block of `seg` numbered `k`. */
  function ExpectedRaw(seg: Segment, k: nat): RawBlock {
    RawBlock(NatToString(k), FormatTime(seg.start), FormatTime(seg.end), Captured(seg.text))
  }

  lemma {:induction false} DigitRunPrefix(a: string, b: string)
    requires AllDigits(a)
    requires |b| > 0 && !IsDigit(b[0])
    ensures DigitRun(a + b) == |a|
    decreases |a|
  {
    if a == [] {
      assert a + b == b;
    } else {
      assert (a + b)[1..] == a[1..] + b;
      DigitRunPrefix(a[1..], b);
    }
  }

  lemma {:induction false} TextRunOfBlockText(text: string, rest: string)
    requires NoBlankLine(text)
    ensures TextRun(text + "\n\n" + rest) == |Captured(text)|
    decreases |text|
  {
    var c := text + "\n\n" + rest;
    if text == [] {
      assert BlankLineAt(c, 0);
    } else if BlankLineAt(c, 0) {
      if |text| > 1 {
        assert BlankLineAt(text, 0);
      }
    } else {
      assert c[1..] == text[1..] + "\n\n" + rest;
      assert NoBlankLine(text[1..]) by {
        forall k | 0 <= k < |text[1..]| ensures !BlankLineAt(text[1..], k) {
          if BlankLineAt(text[1..], k) {
            assert BlankLineAt(text, k + 1);
          }
        }
      }
      TextRunOfBlockText(text[1..], rest);
      if |text| > 1 {
        assert text[1..][|text[1..]| - 1] == text[|text| - 1];
      }
    }
  }

  /** A leading newline is skipped by the scan: no block starts there. */
  lemma SkipNewline(x: string)
    ensures FindBlocks("\n" + x) == FindBlocks(x)
  {
    assert ("\n" + x)[1..] == x;
    assert DigitRun("\n" + x) == 0;
  }

  /** The pieces of a time line: newline, first code, arrow, second code, newline. */
  lemma TimeLineParts(f1: string, f2: string)
    requires |f1| == 12 && |f2| == 12
    ensures var h := TimeLine(f1, f2);
            && |h| == HeaderTail && h[0] == '\n' && h[30] == '\n'
            && h[1..13] == f1 && h[13..18] == " --> " && h[18..30] == f2
  {
  }

  /** A slice inside the middle part of `a + h + b` is a slice of `h`. */
  lemma SliceOfMiddle(c: string, a: string, h: string, b: string, i: nat, j: nat)
    requires c == a + h + b && i <= j <= |h|
    ensures c[|a| + i..|a| + j] == h[i..j]
  {
  }

  /** What follows the prefix `a` of `c == a + x`, and the first `n` characters of it. */
  lemma SliceAfter(c: string, a: string, x: string, n: nat)
    requires c == a + x && n <= |x|
    ensures c[|a|..] == x && c[|a| + n..] == x[n..] && c[|a|..|a| + n] == x[..n]
  {
  }

  /** An index followed by a time line passes the header part of the expression. */
  lemma HeaderMatch(c: string, idx: string, f1: string, f2: string, body: string)
    requires c == idx + TimeLine(f1, f2) + body
    requires |idx| > 0 && AllDigits(idx)
    requires IsTimeCode(f1) && IsTimeCode(f2)
    ensures var d := |idx|;
            && DigitRun(c) == d
            && HeaderAt(c, d)
            && c[..d] == idx && c[d + 1..d + 13] == f1 && c[d + 18..d + 30] == f2
            && c[d + HeaderTail..] == body
  {
    var h := TimeLine(f1, f2);
    var d := |idx|;
    TimeLineParts(f1, f2);
    assert c == idx + (h + body);
    DigitRunPrefix(idx, h + body);
    SliceOfMiddle(c, idx, h, body, 1, 13);
    SliceOfMiddle(c, idx, h, body, 13, 18);
    SliceOfMiddle(c, idx, h, body, 18, 30);
    SliceAfter(c, idx + h, body, 0);
    assert c[d] == h[0] && c[d + 30] == h[30];
  }

  /** The whole expression on an index, a time line and a body whose lazy text group is `captured`. */
  lemma MatchAtHeader(c: string, idx: string, f1: string, f2: string, body: string, captured: string)
    requires c == idx + TimeLine(f1, f2) + body
    requires |idx| > 0 && AllDigits(idx)
    requires IsTimeCode(f1) && IsTimeCode(f2)
    requires TextRun(body) == |captured| && body[..|captured|] == captured
    ensures MatchAt(c) == Some((RawBlock(idx, f1, f2, captured), |idx| + HeaderTail + |captured|))
  {
    HeaderMatch(c, idx, f1, f2, body);
    TimeLineParts(f1, f2);
    SliceAfter(c, idx + TimeLine(f1, f2), body, |captured|);
  }

  /** The captured text is how the block body starts. */
  lemma CapturedPrefix(text: string, rest: string)
    ensures |Captured(text)| <= |text|
    ensures (text + "\n\n" + rest)[..|Captured(text)|] == Captured(text)
  {
  }

  /** A block with index digits `idx`, time codes `f1`, `f2` and text `text` is matched as one whole block. */
  lemma MatchWholeBlock(idx: string, f1: string, f2: string, text: string, rest: string)
    requires |idx| > 0 && AllDigits(idx)
    requires IsTimeCode(f1) && IsTimeCode(f2)
    requires NoBlankLine(text)
    ensures MatchAt(idx + TimeLine(f1, f2) + text + "\n\n" + rest)
              == Some((RawBlock(idx, f1, f2, Captured(text)), |idx| + HeaderTail + |Captured(text)|))
  {
    var body := text + "\n\n" + rest;
    BlockConcat(idx, TimeLine(f1, f2), text, rest);
    TextRunOfBlockText(text, rest);
    CapturedPrefix(text, rest);
    MatchAtHeader(idx + TimeLine(f1, f2) + text + "\n\n" + rest, idx, f1, f2, body, Captured(text));
  }

  /** What a block body leaves after its captured text: the blank line, possibly one newline more, then the rest. */
  lemma DropCaptured(text: string, rest: string)
    ensures |Captured(text)| <= |text|
    ensures (text + "\n\n" + rest)[|Captured(text)|..]
            == if |text| > 0 && text[|text| - 1] == '\n' then "\n" + ("\n" + ("\n" + rest)) else "\n" + ("\n" + rest)
  {
  }

  /** What is left after the match of a whole block. */
  lemma AfterWholeBlock(idx: string, f1: string, f2: string, text: string, rest: string)
    requires |f1| == 12 && |f2| == 12
    ensures var c := idx + TimeLine(f1, f2) + text + "\n\n" + rest;
            var e := |idx| + HeaderTail + |Captured(text)|;
            && e <= |c|
            && c[e..] == if |text| > 0 && text[|text| - 1] == '\n' then "\n" + ("\n" + ("\n" + rest)) else "\n" + ("\n" + rest)
  {
    var c := idx + TimeLine(f1, f2) + text + "\n\n" + rest;
    BlockConcat(idx, TimeLine(f1, f2), text, rest);
    TimeLineParts(f1, f2);
    DropCaptured(text, rest);
    SliceAfter(c, idx + TimeLine(f1, f2), text + "\n\n" + rest, |Captured(text)|);
  }

  lemma BlockConcat(idx: string, line: string, text: string, rest: string)
    ensures idx + line + text + "\n\n" + rest == idx + line + (text + "\n\n" + rest)
  {
  }

  /** After a match the scan resumes where the match ended. */
  lemma FindBlocksAfterMatch(c: string, b: RawBlock, e: nat, after: string)
    requires MatchAt(c) == Some((b, e)) && c[e..] == after
    ensures FindBlocks(c) == [b] + FindBlocks(after)
  {
  }

  /** Scanning one block and what follows it: one raw match, then the scan of the rest. */
  lemma FindBlocksWhole(idx: string, f1: string, f2: string, text: string, rest: string)
    requires |idx| > 0 && AllDigits(idx)
    requires IsTimeCode(f1) && IsTimeCode(f2)
    requires NoBlankLine(text)
    ensures FindBlocks(idx + TimeLine(f1, f2) + text + "\n\n" + rest)
              == [RawBlock(idx, f1, f2, Captured(text))] + FindBlocks(rest)
  {
    var c := idx + TimeLine(f1, f2) + text + "\n\n" + rest;
    var b := RawBlock(idx, f1, f2, Captured(text));
    var e := |idx| + HeaderTail + |Captured(text)|;
    var after := if |text| > 0 && text[|text| - 1] == '\n' then "\n" + ("\n" + ("\n" + rest)) else "\n" + ("\n" + rest);
    assert MatchAt(c) == Some((b, e)) by {
      MatchWholeBlock(idx, f1, f2, text, rest);
    }
    assert c[e..] == after by {
      AfterWholeBlock(idx, f1, f2, text, rest);
    }
    assert FindBlocks(after) == FindBlocks(rest) by {
      SkipNewline("\n" + ("\n" + rest));
      SkipNewline("\n" + rest);
      SkipNewline(rest);
    }
    FindBlocksAfterMatch(c, b, e, after);
  }

  /** Scanning the block of `seg` numbered `k` and what follows it. */
  lemma FindBlocksStep(k: nat, seg: Segment, rest: string)
    requires NoBlankLine(seg.text)
    ensures FindBlocks(Block(k, seg) + rest) == [ExpectedRaw(seg, k)] + FindBlocks(rest)
  {
    FormatTimeFields(seg.start);
    FormatTimeFields(seg.end);
    FindBlocksWhole(NatToString(k), FormatTime(seg.start), FormatTime(seg.end), seg.text, rest);
  }

  /** `f` applied to every segment together with its number, counting from `k`. */
  function Numbered<T>(segs: seq<Segment>, k: nat, f: (Segment, nat) -> T): (r: seq<T>)
    ensures |r| == |segs|
  {
    if segs == [] then [] else [f(segs[0], k)] + Numbered(segs[1..], k + 1, f)
  }

  lemma {:induction false} NumberedAt<T>(segs: seq<Segment>, k: nat, f: (Segment, nat) -> T, i: nat)
    requires i < |segs|
    ensures Numbered(segs, k, f)[i] == f(segs[i], k + i)
    decreases i
  {
    if i > 0 {
      NumberedAt(segs[1..], k + 1, f, i - 1);
      assert segs[1..][i - 1] == segs[i];
    }
  }

  /** The raw matches expected for the blocks numbered from `k`. */
  function ExpectedRaws(segs: seq<Segment>, k: nat): seq<RawBlock> {
    Numbered(segs, k, ExpectedRaw)
  }

  lemma ExpectedRawsAt(segs: seq<Segment>, k: nat, i: nat)
    requires i < |segs|
    ensures ExpectedRaws(segs, k)[i] == ExpectedRaw(segs[i], k + i)
  {
    NumberedAt(segs, k, ExpectedRaw, i);
  }

  /** Scanning the blocks numbered from `k` yields one raw match per segment, in order. */
  lemma {:induction false} FindBlocksOfBlocks(segs: seq<Segment>, k: nat)
    requires forall i :: 0 <= i < |segs| ==> NoBlankLine(segs[i].text)
    ensures FindBlocks(BlocksFrom(segs, k)) == ExpectedRaws(segs, k)
    decreases |segs|
  {
    if segs != [] {
      var rest := BlocksFrom(segs[1..], k + 1);
      assert BlocksFrom(segs, k) == Block(k, segs[0]) + rest;
      FindBlocksStep(k, segs[0], rest);
      assert forall i :: 0 <= i < |segs[1..]| ==> NoBlankLine(segs[1..][i].text) by {
        forall i | 0 <= i < |segs[1..]| ensures NoBlankLine(segs[1..][i].text) {
          assert segs[1..][i] == segs[i + 1];
        }
      }
      FindBlocksOfBlocks(segs[1..], k + 1);
    }
  }

  lemma StripCaptured(text: string)
    ensures Strip(Captured(text)) == Strip(text)
  {
    if |text| > 0 && text[|text| - 1] == '\n' {
      StripDropTrailingSpace(text);
    }
  }

  /** The expected match of one block: its index reads as `k`, its time codes are the formatted times. */
  lemma ExpectedRawFields(seg: Segment, k: nat)
    ensures var r := ExpectedRaw(seg, k);
            && DecimalValue(r.index) == k
            && r.start == FormatTime(seg.start) && r.end == FormatTime(seg.end)
            && IsTimeCode(r.start) && IsTimeCode(r.end)
  {
    FormatTimeFields(seg.start);
    FormatTimeFields(seg.end);
  }

  /** The record parsed from the expected match of one block. */
  lemma CueOfExpected(seg: Segment, k: nat)
    ensures IsTimeCode(ExpectedRaw(seg, k).start) && IsTimeCode(ExpectedRaw(seg, k).end)
    ensures ToCue(ExpectedRaw(seg, k))
            == Cue(TruncateToMillis(seg.start), TruncateToMillis(seg.end), ReplaceChar(Strip(seg.text), '\n', " "))
  {
    ExpectedRawFields(seg, k);
    ParseFormat(seg.start);
    ParseFormat(seg.end);
    StripCaptured(seg.text);
  }

  /** Content whose matches are the expected ones carries the indices 1..N and the segments' time codes. */
  lemma IndicesOfExpected(c: string, segs: seq<Segment>)
    requires FindBlocks(c) == ExpectedRaws(segs, 1)
    ensures var blocks := FindBlocks(c);
            && |blocks| == |segs|
            && forall i :: 0 <= i < |segs| ==>
                 && DecimalValue(blocks[i].index) == i + 1
                 && blocks[i].start == FormatTime(segs[i].start)
                 && blocks[i].end == FormatTime(segs[i].end)
  {
    var blocks := FindBlocks(c);
    forall i | 0 <= i < |segs|
      ensures DecimalValue(blocks[i].index) == i + 1
      ensures blocks[i].start == FormatTime(segs[i].start) && blocks[i].end == FormatTime(segs[i].end)
    {
      ExpectedRawsAt(segs, 1, i);
      ExpectedRawFields(segs[i], 1 + i);
    }
  }

  /** Content whose matches are the expected ones parses to one record per segment, in order. */
  lemma CuesOfExpected(c: string, segs: seq<Segment>)
    requires FindBlocks(c) == ExpectedRaws(segs, 1)
    ensures var cues := ParseSrt(c);
            && |cues| == |segs|
            && forall i :: 0 <= i < |segs| ==>
                 cues[i] == Cue(TruncateToMillis(segs[i].start), TruncateToMillis(segs[i].end),
                                ReplaceChar(Strip(segs[i].text), '\n', " "))
  {
    var blocks := FindBlocks(c);
    var cues := ParseSrt(c);
    forall i | 0 <= i < |segs|
      ensures cues[i] == Cue(TruncateToMillis(segs[i].start), TruncateToMillis(segs[i].end),
                             ReplaceChar(Strip(segs[i].text), '\n', " "))
    {
      ExpectedRawsAt(segs, 1, i);
      CueOfExpected(segs[i], 1 + i);
      assert cues[i] == ToCue(blocks[i]);
    }
  }

  /** The blocks of the generated text carry the indices 1..N in order and the segments' time codes. */
  lemma GeneratedTextIndices(segs: seq<Segment>)
    requires forall i :: 0 <= i < |segs| ==> NoBlankLine(segs[i].text)
    ensures var blocks := FindBlocks(GenerateSrt(segs));
            && |blocks| == |segs|
            && forall i :: 0 <= i < |segs| ==>
                 && DecimalValue(blocks[i].index) == i + 1
                 && blocks[i].start == FormatTime(segs[i].start)
                 && blocks[i].end == FormatTime(segs[i].end)
  {
    FindBlocksOfBlocks(segs, 1);
    IndicesOfExpected(GenerateSrt(segs), segs);
  }

  /** Parsing the generated text itself: one record per segment, in order. */
  lemma ParseGeneratedText(segs: seq<Segment>)
    requires forall i :: 0 <= i < |segs| ==> NoBlankLine(segs[i].text)
    ensures var cues := ParseSrt(GenerateSrt(segs));
            && |cues| == |segs|
            && forall i :: 0 <= i < |segs| ==>
                 cues[i] == Cue(TruncateToMillis(segs[i].start), TruncateToMillis(segs[i].end),
                                ReplaceChar(Strip(segs[i].text), '\n', " "))
  {
    FindBlocksOfBlocks(segs, 1);
    CuesOfExpected(GenerateSrt(segs), segs);
  }

  // ----- through the file -----

  /** The segments as the written file gives them back: times kept, each text as `StoredLine` reads it. */
  function StoredSegments(segs: seq<Segment>, windows: bool): (r: seq<Segment>)
    ensures |r| == |segs|
    ensures forall i :: 0 <= i < |segs| ==>
              r[i] == Segment(segs[i].start, segs[i].end, StoredLine(segs[i].text, windows))
  {
    if segs == [] then []
    else [Segment(segs[0].start, segs[0].end, StoredLine(segs[0].text, windows))] + StoredSegments(segs[1..], windows)
  }

  /** A time code holds digits, colons and a comma only. */
  lemma TimeCodeClean(s: string)
    requires IsTimeCode(s)
    ensures '\r' !in s
  {
    forall i | 0 <= i < |s| ensures s[i] != '\r' {
      if i < 2 { assert s[i] == s[0..2][i]; }
      else if 3 <= i < 5 { assert s[i] == s[3..5][i - 3]; }
      else if 6 <= i < 8 { assert s[i] == s[6..8][i - 6]; }
      else if 9 <= i { assert s[i] == s[9..12][i - 9]; }
    }
  }

  /** The index line and the time line of a block contain no carriage return and end with a newline. */
  lemma HeaderClean(k: nat, seg: Segment)
    ensures var h := NatToString(k) + TimeLine(FormatTime(seg.start), FormatTime(seg.end));
            '\r' !in h && h[|h| - 1] == '\n'
  {
    var f1, f2 := FormatTime(seg.start), FormatTime(seg.end);
    assert '\r' !in f1 by {
      FormatTimeFields(seg.start);
      TimeCodeClean(f1);
    }
    assert '\r' !in f2 by {
      FormatTimeFields(seg.end);
      TimeCodeClean(f2);
    }
    assert '\r' !in NatToString(k);
  }

  lemma BlockSplit(h: string, text: string)
    ensures h + text + "\n\n" == h + ((text + "\n") + "\n")
  {
  }

  /** One block reads back as the block of the segment whose text is read back with `StoredLine`. */
  lemma StoredBlock(k: nat, seg: Segment, windows: bool)
    ensures Stored(Block(k, seg), windows)
            == Block(k, Segment(seg.start, seg.end, StoredLine(seg.text, windows)))
  {
    var h := NatToString(k) + TimeLine(FormatTime(seg.start), FormatTime(seg.end));
    var line := StoredLine(seg.text, windows);
    HeaderClean(k, seg);
    BlockSplit(h, seg.text);
    BlockSplit(h, line);
    assert Stored((seg.text + "\n") + "\n", windows) == (line + "\n") + "\n" by {
      StoredAppend(seg.text + "\n", "\n", windows);
      StoredLineEnd(seg.text, windows);
      StoredClean("\n", windows);
    }
    StoredAppend(h, (seg.text + "\n") + "\n", windows);
    StoredClean(h, windows);
  }

  /** The blocks numbered from `k` read back as the blocks of the read-back segments. */
  lemma {:induction false} StoredBlocks(segs: seq<Segment>, k: nat, windows: bool)
    ensures Stored(BlocksFrom(segs, k), windows) == BlocksFrom(StoredSegments(segs, windows), k)
    decreases |segs|
  {
    var ss := StoredSegments(segs, windows);
    if segs == [] {
      assert Stored([], windows) == [];
    } else {
      var b := Block(k, segs[0]);
      var rest := BlocksFrom(segs[1..], k + 1);
      assert b[|b| - 1] == '\n';
      StoredAppend(b, rest, windows);
      StoredBlock(k, segs[0], windows);
      StoredBlocks(segs[1..], k + 1, windows);
      assert ss[1..] == StoredSegments(segs[1..], windows);
    }
  }

  /**
   * The blocks `generate_srt` writes, as a read of the file gives them back,
   * carry the indices 1, 2, ..., N in order, one per segment, each with that
   * segment's two time codes. This needs every text, as read back, to be
   * free of blank lines.
   */
  lemma GeneratedIndices(segs: seq<Segment>, windows: bool)
    requires forall i :: 0 <= i < |segs| ==> NoBlankLine(StoredLine(segs[i].text, windows))
    ensures var blocks := FindBlocks(Stored(GenerateSrt(segs), windows));
            && |blocks| == |segs|
            && forall i :: 0 <= i < |segs| ==>
                 && DecimalValue(blocks[i].index) == i + 1
                 && blocks[i].start == FormatTime(segs[i].start)
                 && blocks[i].end == FormatTime(segs[i].end)
  {
    var ss := StoredSegments(segs, windows);
    StoredBlocks(segs, 1, windows);
    GeneratedTextIndices(ss);
  }

  /**
   * Round trip through the file: parsing what a read of the generated file
   * returns gives one record per segment, in order, with the segment's times
   * truncated to milliseconds (whole days dropped) and its text, as read
   * back, stripped with newlines turned into spaces. This needs every text,
   * as read back, to be free of blank lines.
   */
  lemma ParseGenerate(segs: seq<Segment>, windows: bool)
    requires forall i :: 0 <= i < |segs| ==> NoBlankLine(StoredLine(segs[i].text, windows))
    ensures var cues := ParseSrt(Stored(GenerateSrt(segs), windows));
            && |cues| == |segs|
            && forall i :: 0 <= i < |segs| ==>
                 cues[i] == Cue(TruncateToMillis(segs[i].start), TruncateToMillis(segs[i].end),
                                ReplaceChar(Strip(StoredLine(segs[i].text, windows)), '\n', " "))
  {
    var ss := StoredSegments(segs, windows);
    StoredBlocks(segs, 1, windows);
    ParseGeneratedText(ss);
  }

  /** For texts without a carriage return, the file gives back each text as written. */
  lemma ParseGenerateClean(segs: seq<Segment>, windows: bool)
    requires forall i :: 0 <= i < |segs| ==> '\r' !in segs[i].text && NoBlankLine(segs[i].text)
    ensures var cues := ParseSrt(Stored(GenerateSrt(segs), windows));
            && |cues| == |segs|
            && forall i :: 0 <= i < |segs| ==>
                 cues[i].text == ReplaceChar(Strip(segs[i].text), '\n', " ")
  {
    forall i | 0 <= i < |segs| ensures StoredLine(segs[i].text, windows) == segs[i].text {
      StoredLineClean(segs[i].text, windows);
    }
    ParseGenerate(segs, windows);
  }
}
