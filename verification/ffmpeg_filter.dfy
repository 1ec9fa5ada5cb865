/**
 * The ffmpeg filter strings the burning step builds: the path escaping for
 * the `subtitles` filter and the text escaping and assembly of the
 * `drawtext` fallback. Each is paired with a lemma that reads the string
 * back through `FfmpegSyntax` and recovers what was put in.
 */
module FfmpegFilter {
  import opened Text
  import opened Srt
  import opened FfmpegSyntax

  // ----- paths -----

  /**
   * escape_ffmpeg_path: on Windows, backslashes become forward slashes and
   * every colon becomes two backslashes and the colon; elsewhere the path is
   * left alone.
   */
  function EscapePath(path: string, windows: bool): (r: string)
    ensures !windows ==> r == path
    ensures windows && '\\' !in path && ':' !in path ==> r == path
    ensures windows ==> |r| == |path| + 2 * Count(path, ':')
  {
    if windows then
      var slashed := ReplaceChar(path, '\\', "/");
      ReplaceCharCountOther(path, '\\', "/", ':');
      ReplaceChar(slashed, ':', "\\\\:")
    else path
  }

  /** The filter of the first burning method: the escaped path as the `filename` option. */
  function SubtitlesFilter(srtPath: string, windows: bool): string {
    "subtitles=filename=" + EscapePath(srtPath, windows)
  }

  /** A string that neither ends a filter's arguments nor opens a quote. */
  predicate FilterSafe(p: string) {
    forall i :: 0 <= i < |p| ==> p[i] != '\'' && p[i] !in ArgTerms
  }

  /** At the first escaping level a doubly escaped colon reads as a singly escaped one. */
  lemma ReadsDoubleEscapedColon(rest: string)
    ensures Reads("\\\\:", "\\:", rest, ArgTerms)
  {
    ReadsEscaped('\\', ":" + rest, ArgTerms);
    ReadsPlainChar(':', rest, ArgTerms);
    ReadsThen(['\\', '\\'], ['\\'], ":", ":", rest, ArgTerms);
    assert ['\\', '\\'] + ":" == "\\\\:";
    assert ['\\'] + ":" == "\\:";
  }

  /** First escaping level: each escaped colon loses one of its two backslashes. */
  lemma {:induction false} ReadColonsOnce(q: string, rest: string)
    requires FilterSafe(q) && '\\' !in q
    ensures Reads(ReplaceChar(q, ':', "\\\\:"), ReplaceChar(q, ':', "\\:"), rest, ArgTerms)
    decreases |q|
  {
    if q == [] {
      ReadsNothing(rest, ArgTerms);
    } else {
      var tail := ReplaceChar(q[1..], ':', "\\\\:");
      var dec := ReplaceChar(q[1..], ':', "\\:");
      ReadColonsOnce(q[1..], rest);
      if q[0] == ':' {
        ReadsDoubleEscapedColon(tail + rest);
        ReadsThen("\\\\:", "\\:", tail, dec, rest, ArgTerms);
        assert ReplaceChar(q, ':', "\\\\:") == "\\\\:" + tail;
        assert ReplaceChar(q, ':', "\\:") == "\\:" + dec;
      } else {
        ReadsPlainChar(q[0], tail + rest, ArgTerms);
        ReadsThen([q[0]], [q[0]], tail, dec, rest, ArgTerms);
        assert ReplaceChar(q, ':', "\\\\:") == [q[0]] + tail;
        assert ReplaceChar(q, ':', "\\:") == [q[0]] + dec;
      }
    }
  }

  /** Second escaping level: each escaped colon is read as a colon inside the value. */
  lemma {:induction false} ReadColonsTwice(q: string, rest: string)
    requires '\\' !in q && '\'' !in q
    ensures Reads(ReplaceChar(q, ':', "\\:"), q, rest, ValueTerms)
    decreases |q|
  {
    if q == [] {
      ReadsNothing(rest, ValueTerms);
    } else {
      var tail := ReplaceChar(q[1..], ':', "\\:");
      ReadColonsTwice(q[1..], rest);
      if q[0] == ':' {
        ReadsEscaped(':', tail + rest, ValueTerms);
        ReadsThen(['\\', ':'], [':'], tail, q[1..], rest, ValueTerms);
        assert ReplaceChar(q, ':', "\\:") == ['\\', ':'] + tail;
      } else {
        ReadsPlainChar(q[0], tail + rest, ValueTerms);
        ReadsThen([q[0]], [q[0]], tail, q[1..], rest, ValueTerms);
        assert ReplaceChar(q, ':', "\\:") == [q[0]] + tail;
      }
      assert [q[0]] + q[1..] == q;
    }
  }

  /** `key=enc` read as an option stops where `enc` ends when a colon or the end follows. */
  lemma ReadOptionOf(key: string, enc: string, value: string, tail: string)
    requires Plain(key, KeyTerms)
    requires Reads(enc, value, tail, ValueTerms)
    requires tail == [] || tail[0] == ':'
    ensures ReadOption(key + ("=" + (enc + tail))) == (Opt(key, value), |key| + 1 + |enc|)
  {
    var s := key + ("=" + (enc + tail));
    ReadsPlain(key, "=" + (enc + tail), KeyTerms);
    ReadsWhole(key, key, "=" + (enc + tail), KeyTerms);
    ReadsWhole(enc, value, tail, ValueTerms);
    assert s[|key|] == '=';
    assert s[|key| + 1..] == enc + tail;
  }

  /** `key=enc` followed by `:rest` reads as one option followed by the options of `rest`. */
  lemma OptionThen(key: string, enc: string, value: string, rest: string)
    requires Plain(key, KeyTerms)
    requires Reads(enc, value, ":" + rest, ValueTerms)
    ensures ParseOptions(key + ("=" + (enc + (":" + rest)))) == [Opt(key, value)] + ParseOptions(rest)
  {
    var s := key + ("=" + (enc + (":" + rest)));
    ReadOptionOf(key, enc, value, ":" + rest);
    DropJoined(key, enc, ":", rest);
    OptionStep(s, Opt(key, value), |key| + 1 + |enc|, rest);
  }

  /** An option followed by more text is the first of the options. */
  lemma OptionStep(s: string, o: Opt, n: nat, rest: string)
    requires ReadOption(s) == (o, n) && n < |s| && s[n + 1..] == rest
    ensures ParseOptions(s) == [o] + ParseOptions(rest)
  {
  }

  /** What follows `key=enc` and a one-character separator is the rest. */
  lemma DropJoined(key: string, enc: string, sep: string, rest: string)
    requires |sep| == 1
    ensures |key + ("=" + (enc + (sep + rest)))| == |key| + 1 + |enc| + 1 + |rest|
    ensures (key + ("=" + (enc + (sep + rest))))[|key| + 1 + |enc|] == sep[0]
    ensures (key + ("=" + (enc + (sep + rest))))[|key| + 1 + |enc| + 1..] == rest
  {
    var t1 := "=" + (enc + (sep + rest));
    var t2 := enc + (sep + rest);
    var t3 := sep + rest;
    assert (key + t1)[|key|..] == t1;
    assert t1[1..] == t2;
    assert t2[|enc|..] == t3;
    assert t3[1..] == rest;
  }

  /** A final `key=enc` reads as that one option. */
  lemma OptionLast(key: string, enc: string, value: string)
    requires Plain(key, KeyTerms)
    requires Reads(enc, value, "", ValueTerms)
    ensures ParseOptions(key + ("=" + enc)) == [Opt(key, value)]
  {
    assert enc + "" == enc;
    ReadOptionOf(key, enc, value, "");
  }

  /** `name=enc` read as a filter stops where `enc` ends when a comma or the end follows. */
  lemma ReadFilterOf(name: string, enc: string, args: string, tail: string)
    requires Plain(name, NameTerms)
    requires Reads(enc, args, tail, ArgTerms)
    requires tail == [] || tail[0] == ','
    ensures ReadFilter(name + ("=" + (enc + tail))) == (Filter(name, args), |name| + 1 + |enc|)
  {
    var s := name + ("=" + (enc + tail));
    ReadsPlain(name, "=" + (enc + tail), NameTerms);
    ReadsWhole(name, name, "=" + (enc + tail), NameTerms);
    ReadsWhole(enc, args, tail, ArgTerms);
    assert s[|name|] == '=';
    assert s[|name| + 1..] == enc + tail;
  }

  /** `name=enc` alone reads as one filter whose arguments are what `enc` reads as. */
  lemma ChainOfOne(name: string, enc: string, args: string)
    requires Plain(name, NameTerms)
    requires Reads(enc, args, "", ArgTerms)
    ensures ParseChain(name + ("=" + enc)) == [Filter(name, args)]
  {
    assert enc + "" == enc;
    ReadFilterOf(name, enc, args, "");
  }

  /** `name=enc,rest` reads as one filter followed by the filters of `rest`. */
  lemma ChainThen(name: string, enc: string, args: string, rest: string)
    requires Plain(name, NameTerms)
    requires Reads(enc, args, "," + rest, ArgTerms)
    ensures ParseChain(name + ("=" + (enc + ("," + rest)))) == [Filter(name, args)] + ParseChain(rest)
  {
    var s := name + ("=" + (enc + ("," + rest)));
    ReadFilterOf(name, enc, args, "," + rest);
    DropJoined(name, enc, ",", rest);
    ChainStep(s, Filter(name, args), |name| + 1 + |enc|, rest);
  }

  /** A filter followed by a comma is the first of the chain. */
  lemma ChainStep(s: string, f: Filter, n: nat, rest: string)
    requires ReadFilter(s) == (f, n) && n < |s| && s[n] == ',' && s[n + 1..] == rest
    ensures ParseChain(s) == [f] + ParseChain(rest)
  {
  }

  /** Forward slashes keep a path filter-safe. */
  lemma SlashedFilterSafe(p: string)
    requires FilterSafe(p)
    ensures FilterSafe(ReplaceChar(p, '\\', "/")) && '\\' !in ReplaceChar(p, '\\', "/")
  {
    var q := ReplaceChar(p, '\\', "/");
    forall x | x == '\'' || x in ArgTerms
      ensures x !in q
    {
      CountAbsent(p, x);
      ReplaceCharCountOther(p, '\\', "/", x);
      CountAbsent(q, x);
    }
  }

  /** The subtitles filter as a filter name and its argument string. */
  lemma SubtitlesFilterShape(srtPath: string, windows: bool)
    ensures SubtitlesFilter(srtPath, windows) == "subtitles" + ("=" + ("filename" + ("=" + EscapePath(srtPath, windows))))
  {
  }

  /** `filename=enc` reads as `filename=` and what `enc` reads as. */
  lemma FilenameArgs(enc: string, args: string)
    requires Reads(enc, args, "", ArgTerms)
    ensures Reads("filename" + ("=" + enc), "filename" + ("=" + args), "", ArgTerms)
  {
    ReadsPlainChar('=', enc + "", ArgTerms);
    ReadsThen("=", "=", enc, args, "", ArgTerms);
    ReadsPlain("filename", ("=" + enc) + "", ArgTerms);
    ReadsThen("filename", "filename", "=" + enc, "=" + args, "", ArgTerms);
  }

  /** The subtitles filter with an escaped path `enc`, read through both escaping levels. */
  lemma FilenameOption(enc: string, args: string, value: string)
    requires Reads(enc, args, "", ArgTerms)
    requires Reads(args, value, "", ValueTerms)
    ensures var fs := ParseChain("subtitles" + ("=" + ("filename" + ("=" + enc))));
            |fs| == 1 && fs[0].name == "subtitles" && ParseOptions(fs[0].args) == [Opt("filename", value)]
  {
    FilenameArgs(enc, args);
    ChainOfOne("subtitles", "filename" + ("=" + enc), "filename" + ("=" + args));
    OptionLast("filename", args, value);
  }

  /**
   * On Windows the subtitles filter names one filter, `subtitles`, whose one
   * option `filename` is the SRT path with forward slashes.
   */
  lemma SubtitlesFilterWindows(srtPath: string)
    requires FilterSafe(srtPath)
    ensures var fs := ParseChain(SubtitlesFilter(srtPath, true));
            |fs| == 1 && fs[0].name == "subtitles" &&
            ParseOptions(fs[0].args) == [Opt("filename", ReplaceChar(srtPath, '\\', "/"))]
  {
    var q := ReplaceChar(srtPath, '\\', "/");
    SlashedFilterSafe(srtPath);
    ReadColonsOnce(q, "");
    ReadColonsTwice(q, "");
    FilenameOption(ReplaceChar(q, ':', "\\\\:"), ReplaceChar(q, ':', "\\:"), q);
    SubtitlesFilterShape(srtPath, true);
  }

  /** Elsewhere a path without colons or backslashes reaches the filter unchanged. */
  lemma SubtitlesFilterPosix(srtPath: string)
    requires FilterSafe(srtPath) && ':' !in srtPath && '\\' !in srtPath
    ensures var fs := ParseChain(SubtitlesFilter(srtPath, false));
            |fs| == 1 && fs[0].name == "subtitles" &&
            ParseOptions(fs[0].args) == [Opt("filename", srtPath)]
  {
    assert Plain(srtPath, ArgTerms);
    assert Plain(srtPath, ValueTerms);
    ReadsPlain(srtPath, "", ArgTerms);
    ReadsPlain(srtPath, "", ValueTerms);
    FilenameOption(srtPath, srtPath, srtPath);
    SubtitlesFilterShape(srtPath, false);
  }

  // ----- drawtext -----

  /**
   * The text escaping of the drawtext method: backslashes are doubled,
   * apostrophes become typographic right quotes, and colons, percent signs
   * and commas get a backslash, in that order.
   */
  function EscapeDrawtext(t: string): string {
    ReplaceChar(ReplaceChar(ReplaceChar(ReplaceChar(ReplaceChar(
      t, '\\', "\\\\"), '\'', "\U{2019}"), ':', "\\:"), '%', "\\%"), ',', "\\,")
  }

  /** The escape of one character: the reference the five replacements are compared with. */
  function EscapeTextChar(c: char): string {
    if c == '\\' then "\\\\"
    else if c == '\'' then "\U{2019}"
    else if c in {':', '%', ','} then ['\\', c]
    else [c]
  }

  /** Character-by-character escaping. */
  function EscapeEach(t: string): string {
    if t == [] then [] else EscapeTextChar(t[0]) + EscapeEach(t[1..])
  }

  lemma EscapeDrawtextAppend(a: string, b: string)
    ensures EscapeDrawtext(a + b) == EscapeDrawtext(a) + EscapeDrawtext(b)
  {
    var a1, b1 := ReplaceChar(a, '\\', "\\\\"), ReplaceChar(b, '\\', "\\\\");
    ReplaceCharAppend(a, b, '\\', "\\\\");
    var a2, b2 := ReplaceChar(a1, '\'', "\U{2019}"), ReplaceChar(b1, '\'', "\U{2019}");
    ReplaceCharAppend(a1, b1, '\'', "\U{2019}");
    var a3, b3 := ReplaceChar(a2, ':', "\\:"), ReplaceChar(b2, ':', "\\:");
    ReplaceCharAppend(a2, b2, ':', "\\:");
    var a4, b4 := ReplaceChar(a3, '%', "\\%"), ReplaceChar(b3, '%', "\\%");
    ReplaceCharAppend(a3, b3, '%', "\\%");
    ReplaceCharAppend(a4, b4, ',', "\\,");
  }

  lemma EscapeDrawtextChar(c: char)
    ensures EscapeDrawtext([c]) == EscapeTextChar(c)
  {
    ReplaceCharOne(c, '\\', "\\\\");
    if c == '\\' {
      assert EscapeDrawtext([c]) == "\\\\";
    } else {
      ReplaceCharOne(c, '\'', "\U{2019}");
      if c == '\'' {
        assert EscapeDrawtext([c]) == "\U{2019}";
      } else {
        ReplaceCharOne(c, ':', "\\:");
        if c == ':' {
          assert EscapeDrawtext([c]) == "\\:";
        } else {
          ReplaceCharOne(c, '%', "\\%");
          if c == '%' {
            assert EscapeDrawtext([c]) == "\\%";
          } else {
            ReplaceCharOne(c, ',', "\\,");
          }
        }
      }
    }
  }

  /**
   * The five replacements in a row escape each character on its own: no
   * replacement touches what an earlier one produced.
   */
  lemma {:induction false} EscapeDrawtextEach(t: string)
    ensures EscapeDrawtext(t) == EscapeEach(t)
    decreases |t|
  {
    if t != [] {
      EscapeDrawtextAppend([t[0]], t[1..]);
      EscapeDrawtextChar(t[0]);
      EscapeDrawtextEach(t[1..]);
      assert [t[0]] + t[1..] == t;
    }
  }

  /** Escaped text contains no apostrophe, so it can sit between single quotes. */
  lemma {:induction false} EscapeEachNoQuote(t: string)
    ensures '\'' !in EscapeEach(t)
    decreases |t|
  {
    if t != [] {
      EscapeEachNoQuote(t[1..]);
    }
  }

  /** The escapes the text needs: backslashes, colons, percent signs and commas. */
  function EscapeCount(t: string): nat {
    Count(t, '\\') + Count(t, ':') + Count(t, '%') + Count(t, ',')
  }

  /** Each character escapes to itself plus one backslash when it needs one. */
  lemma {:induction false} EscapeEachLength(t: string)
    ensures |EscapeEach(t)| == |t| + EscapeCount(t)
    decreases |t|
  {
    if t != [] {
      EscapeEachLength(t[1..]);
    }
  }

  /**
   * The drawtext escape of a text has no apostrophe and is one character
   * longer than the text for every backslash, colon, percent sign and comma.
   */
  lemma EscapeDrawtextShape(t: string)
    ensures '\'' !in EscapeDrawtext(t)
    ensures |EscapeDrawtext(t)| == |t| + EscapeCount(t)
  {
    EscapeDrawtextEach(t);
    EscapeEachNoQuote(t);
    EscapeEachLength(t);
  }

  /**
   * At the second escaping level escaped text reads back as the original
   * text, except that apostrophes have become typographic quotes.
   */
  lemma {:induction false} ReadsEscapedText(t: string, rest: string)
    ensures Reads(EscapeEach(t), ReplaceChar(t, '\'', "\U{2019}"), rest, ValueTerms)
    decreases |t|
  {
    if t == [] {
      ReadsNothing(rest, ValueTerms);
    } else {
      var c := t[0];
      var tail := EscapeEach(t[1..]);
      var dec := ReplaceChar(t[1..], '\'', "\U{2019}");
      ReadsEscapedText(t[1..], rest);
      var head := if c == '\'' then "\U{2019}" else [c];
      if c == '\\' || c == ':' || c == '%' || c == ',' {
        ReadsEscaped(c, tail + rest, ValueTerms);
        ReadsThen(['\\', c], [c], tail, dec, rest, ValueTerms);
      } else {
        ReadsPlainChar(EscapeTextChar(c)[0], tail + rest, ValueTerms);
        ReadsThen(EscapeTextChar(c), head, tail, dec, rest, ValueTerms);
      }
      assert ReplaceChar(t, '\'', "\U{2019}") == head + dec;
    }
  }

  /** A time as the drawtext method prints it; the rendering of Python floats is a parameter. */
  type Show = int -> string

  /** The `enable` expression: the cue is shown from its start to its end. */
  function Between(cue: Cue, show: Show): string {
    "between(t," + show(cue.start) + "," + show(cue.end) + ")"
  }

  /** A value between single quotes, as the drawtext method writes the text and the `enable` expression. */
  function Quoted(s: string): string {
    "'" + s + "'"
  }

  /** The fixed styling part of every drawtext filter, written option by option. */
  const StyleText: string :=
    "fontsize=24:" + ("fontcolor=white:" + ("bordercolor=black:" + ("borderw=2:"
    + ("x=(w-text_w)/2:" + "y=h-th-20:"))))

  /** The drawtext filter that shows one cue, as the fallback method assembles it. */
  function DrawtextFilter(cue: Cue, fontPath: string, show: Show): string {
    "drawtext=" + DrawtextText(cue, fontPath, show)
  }

  /** The argument text of a drawtext filter, before any escaping level is undone. */
  function DrawtextText(cue: Cue, fontPath: string, show: Show): string {
    "fontfile=" + (fontPath + (":"
    + ("text=" + (Quoted(EscapeDrawtext(cue.text)) + (":"
    + (StyleText
    + ("enable=" + Quoted(Between(cue, show)))))))))
  }

  /** The fixed styling options of every drawtext filter. */
  const StyleOptions: seq<Opt> := [
    Opt("fontsize", "24"), Opt("fontcolor", "white"), Opt("bordercolor", "black"),
    Opt("borderw", "2"), Opt("x", "(w-text_w)/2"), Opt("y", "h-th-20")]

  /** The font file the drawtext method names. */
  const FontFile: string := "C:/Windows/Fonts/arial.ttf"

  /** The options a drawtext filter should carry for a cue, after both escaping levels. */
  function DrawtextOptions(font: string, cue: Cue, show: Show): seq<Opt> {
    [Opt("fontfile", font), Opt("text", ReplaceChar(cue.text, '\'', "\U{2019}"))]
    + StyleOptions + [Opt("enable", Between(cue, show))]
  }

  /** The options as `key=value:` text. */
  function OptionText(opts: seq<Opt>): string {
    if opts == [] then "" else opts[0].key + "=" + opts[0].value + ":" + OptionText(opts[1..])
  }

  predicate PlainOptions(opts: seq<Opt>) {
    forall i :: 0 <= i < |opts| ==> Plain(opts[i].key, KeyTerms) && Plain(opts[i].value, ValueTerms)
  }

  /** Options written as plain `key=value:` text read back as themselves. */
  lemma {:induction false} OptionTextReads(opts: seq<Opt>, rest: string)
    requires PlainOptions(opts)
    ensures ParseOptions(OptionText(opts) + rest) == opts + ParseOptions(rest)
    decreases |opts|
  {
    if opts == [] {
      assert OptionText(opts) + rest == rest;
    } else {
      var o := opts[0];
      var more := OptionText(opts[1..]) + rest;
      PlainOptionsTail(opts);
      OptionTextReads(opts[1..], rest);
      ReadsPlain(o.value, ":" + more, ValueTerms);
      OptionThen(o.key, o.value, o.value, more);
      OptionTextCons(opts, rest);
      ConsOptions(opts, ParseOptions(rest));
    }
  }

  lemma PlainOptionsTail(opts: seq<Opt>)
    requires opts != [] && PlainOptions(opts)
    ensures Plain(opts[0].key, KeyTerms) && Plain(opts[0].value, ValueTerms)
    ensures PlainOptions(opts[1..])
  {
    forall i | 0 <= i < |opts[1..]|
      ensures Plain(opts[1..][i].key, KeyTerms) && Plain(opts[1..][i].value, ValueTerms)
    {
      assert opts[1..][i] == opts[i + 1];
    }
  }

  lemma OptionTextCons(opts: seq<Opt>, rest: string)
    requires opts != []
    ensures OptionText(opts) + rest
         == opts[0].key + ("=" + (opts[0].value + (":" + (OptionText(opts[1..]) + rest))))
  {
  }

  lemma ConsOptions(opts: seq<Opt>, tail: seq<Opt>)
    requires opts != []
    ensures [opts[0]] + (opts[1..] + tail) == opts + tail
  {
  }

  lemma OptionTextPrepend(o: Opt, opts: seq<Opt>)
    ensures OptionText([o] + opts) == o.key + "=" + o.value + ":" + OptionText(opts)
  {
    assert ([o] + opts)[1..] == opts;
  }

  lemma PlainOptionsCons(o: Opt, opts: seq<Opt>)
    requires Plain(o.key, KeyTerms) && Plain(o.value, ValueTerms) && PlainOptions(opts)
    ensures PlainOptions([o] + opts)
  {
    assert forall i | 1 <= i < |[o] + opts| :: ([o] + opts)[i] == opts[i - 1];
  }

  lemma StyleOptionsNested()
    ensures StyleOptions == [Opt("fontsize", "24")] + ([Opt("fontcolor", "white")] + ([Opt("bordercolor", "black")]
      + ([Opt("borderw", "2")] + ([Opt("x", "(w-text_w)/2")] + [Opt("y", "h-th-20")]))))
  {
  }

  lemma StylePieces()
    ensures "fontsize=24:" == "fontsize" + "=" + "24" + ":"
    ensures "fontcolor=white:" == "fontcolor" + "=" + "white" + ":"
    ensures "bordercolor=black:" == "bordercolor" + "=" + "black" + ":"
    ensures "borderw=2:" == "borderw" + "=" + "2" + ":"
    ensures "x=(w-text_w)/2:" == "x" + "=" + "(w-text_w)/2" + ":"
    ensures "y=h-th-20:" == "y" + "=" + "h-th-20" + ":"
  {
  }

  /** The styling text is exactly the styling options written out. */
  lemma StyleTextOptions()
    ensures StyleText == OptionText(StyleOptions)
  {
    var o6 := [Opt("y", "h-th-20")];
    var o5 := [Opt("x", "(w-text_w)/2")] + o6;
    var o4 := [Opt("borderw", "2")] + o5;
    var o3 := [Opt("bordercolor", "black")] + o4;
    var o2 := [Opt("fontcolor", "white")] + o3;
    StyleOptionsNested();
    StylePieces();
    OptionTextPrepend(Opt("y", "h-th-20"), []);
    assert o6 == [Opt("y", "h-th-20")] + [];
    OptionTextPrepend(Opt("x", "(w-text_w)/2"), o6);
    OptionTextPrepend(Opt("borderw", "2"), o5);
    OptionTextPrepend(Opt("bordercolor", "black"), o4);
    OptionTextPrepend(Opt("fontcolor", "white"), o3);
    OptionTextPrepend(Opt("fontsize", "24"), o2);
  }

  lemma StyleKeysPlain()
    ensures Plain("fontsize", KeyTerms) && Plain("fontcolor", KeyTerms) && Plain("bordercolor", KeyTerms)
    ensures Plain("borderw", KeyTerms) && Plain("x", KeyTerms) && Plain("y", KeyTerms)
  {
  }

  lemma StyleValuesPlain()
    ensures Plain("24", ValueTerms) && Plain("white", ValueTerms) && Plain("black", ValueTerms)
    ensures Plain("2", ValueTerms) && Plain("(w-text_w)/2", ValueTerms) && Plain("h-th-20", ValueTerms)
  {
  }

  /** No styling key or value needs escaping. */
  lemma StyleOptionsPlain()
    ensures PlainOptions(StyleOptions)
  {
    var o6 := [Opt("y", "h-th-20")];
    var o5 := [Opt("x", "(w-text_w)/2")] + o6;
    var o4 := [Opt("borderw", "2")] + o5;
    var o3 := [Opt("bordercolor", "black")] + o4;
    var o2 := [Opt("fontcolor", "white")] + o3;
    StyleOptionsNested();
    StyleKeysPlain();
    StyleValuesPlain();
    PlainOptionsCons(Opt("y", "h-th-20"), []);
    assert o6 == [Opt("y", "h-th-20")] + [];
    PlainOptionsCons(Opt("x", "(w-text_w)/2"), o6);
    PlainOptionsCons(Opt("borderw", "2"), o5);
    PlainOptionsCons(Opt("bordercolor", "black"), o4);
    PlainOptionsCons(Opt("fontcolor", "white"), o3);
    PlainOptionsCons(Opt("fontsize", "24"), o2);
  }

  /** The styling text needs no escaping at the first level either. */
  lemma StyleTextPlain()
    ensures Plain(StyleText, ArgTerms)
  {
    PlainAppend("x=(w-text_w)/2:", "y=h-th-20:", ArgTerms);
    PlainAppend("borderw=2:", "x=(w-text_w)/2:" + "y=h-th-20:", ArgTerms);
    PlainAppend("bordercolor=black:", "borderw=2:" + ("x=(w-text_w)/2:" + "y=h-th-20:"), ArgTerms);
    PlainAppend("fontcolor=white:", "bordercolor=black:" + ("borderw=2:" + ("x=(w-text_w)/2:" + "y=h-th-20:")), ArgTerms);
    PlainAppend("fontsize=24:", "fontcolor=white:" + ("bordercolor=black:" + ("borderw=2:" + ("x=(w-text_w)/2:" + "y=h-th-20:"))), ArgTerms);
  }

  /** A printed time that needs no escaping inside an option value. */
  predicate ShowSafe(x: string) {
    Plain(x, ValueTerms)
  }

  lemma PlainBetween(cue: Cue, show: Show)
    requires ShowSafe(show(cue.start)) && ShowSafe(show(cue.end))
    ensures Plain(Between(cue, show), ValueTerms) && '\'' !in Between(cue, show)
  {
    var b := Between(cue, show);
    forall i | 0 <= i < |b|
      ensures b[i] !in ValueTerms && b[i] != '\\' && b[i] != '\''
    {
      var s, e := show(cue.start), show(cue.end);
      assert b == "between(t," + s + "," + e + ")";
      if i < 10 {
      } else if i < 10 + |s| {
        assert b[i] == s[i - 10];
      } else if i == 10 + |s| {
      } else if i < 11 + |s| + |e| {
        assert b[i] == e[i - 11 - |s|];
      }
    }
  }

  /** The argument string of a drawtext filter after the first escaping level. */
  function DrawtextArgs(font: string, cue: Cue, show: Show): string {
    "fontfile=" + (ReplaceChar(font, ':', "\\:") + (":"
    + ("text=" + (EscapeDrawtext(cue.text) + (":"
    + (StyleText
    + ("enable=" + Between(cue, show))))))))
  }

  /** Neither quoted value of a drawtext filter contains an apostrophe. */
  lemma DrawtextNoQuotes(cue: Cue, show: Show)
    requires ShowSafe(show(cue.start)) && ShowSafe(show(cue.end))
    ensures '\'' !in EscapeDrawtext(cue.text) && '\'' !in Between(cue, show)
  {
    EscapeDrawtextEach(cue.text);
    EscapeEachNoQuote(cue.text);
    PlainBetween(cue, show);
  }

  /** First level, the part after the text: only the quotes around the `enable` expression go. */
  lemma DrawtextTailReads(b: string, rest: string)
    requires '\'' !in b
    ensures Reads(":" + (StyleText + ("enable=" + Quoted(b))), ":" + (StyleText + ("enable=" + b)), rest, ArgTerms)
  {
    ReadsNothing(rest, ArgTerms);
    ReadsQuotedThen(b, "", "", rest, ArgTerms);
    assert Quoted(b) + "" == Quoted(b) && b + "" == b;
    ReadsPlainThen("enable=", Quoted(b), b, rest, ArgTerms);
    StyleTextPlain();
    ReadsPlainThen(StyleText, "enable=" + Quoted(b), "enable=" + b, rest, ArgTerms);
    ReadsPlainThen(":", StyleText + ("enable=" + Quoted(b)), StyleText + ("enable=" + b), rest, ArgTerms);
  }

  /** First level, from the text on: the quotes around the escaped text go too. */
  lemma DrawtextMiddleReads(e: string, b: string, rest: string)
    requires '\'' !in e && '\'' !in b
    ensures Reads(":" + ("text=" + (Quoted(e) + (":" + (StyleText + ("enable=" + Quoted(b)))))),
                  ":" + ("text=" + (e + (":" + (StyleText + ("enable=" + b))))), rest, ArgTerms)
  {
    var t := ":" + (StyleText + ("enable=" + Quoted(b)));
    var td := ":" + (StyleText + ("enable=" + b));
    DrawtextTailReads(b, rest);
    ReadsQuotedThen(e, t, td, rest, ArgTerms);
    ReadsPlainThen("text=", Quoted(e) + t, e + td, rest, ArgTerms);
    ReadsPlainThen(":", "text=" + (Quoted(e) + t), "text=" + (e + td), rest, ArgTerms);
  }

  /** First level, the whole argument text, for any font path that is read as `fd`. */
  lemma DrawtextArgsRead(fp: string, fd: string, e: string, b: string, rest: string)
    requires '\'' !in e && '\'' !in b
    requires Reads(fp, fd, ":" + ("text=" + (Quoted(e) + (":" + (StyleText + ("enable=" + Quoted(b)))))) + rest, ArgTerms)
    ensures Reads("fontfile=" + (fp + (":" + ("text=" + (Quoted(e) + (":" + (StyleText + ("enable=" + Quoted(b)))))))),
                  "fontfile=" + (fd + (":" + ("text=" + (e + (":" + (StyleText + ("enable=" + b))))))), rest, ArgTerms)
  {
    var m := ":" + ("text=" + (Quoted(e) + (":" + (StyleText + ("enable=" + Quoted(b))))));
    var md := ":" + ("text=" + (e + (":" + (StyleText + ("enable=" + b)))));
    DrawtextMiddleReads(e, b, rest);
    ReadsThen(fp, fd, m, md, rest, ArgTerms);
    ReadsPlainThen("fontfile=", fp + m, fd + md, rest, ArgTerms);
  }

  /** Without backslashes, the Windows escaping only doubles the escape of each colon. */
  lemma EscapePathColons(font: string)
    requires '\\' !in font
    ensures EscapePath(font, true) == ReplaceChar(font, ':', "\\\\:")
  {
  }

  /**
   * First level: the argument text of a drawtext filter whose font path was
   * escaped for Windows unquotes and unescapes to `DrawtextArgs`.
   */
  lemma DrawtextTextReads(font: string, cue: Cue, show: Show, rest: string)
    requires FilterSafe(font) && '\\' !in font
    requires ShowSafe(show(cue.start)) && ShowSafe(show(cue.end))
    ensures Reads(DrawtextText(cue, EscapePath(font, true), show), DrawtextArgs(font, cue, show), rest, ArgTerms)
  {
    var e := EscapeDrawtext(cue.text);
    var b := Between(cue, show);
    var m := ":" + ("text=" + (Quoted(e) + (":" + (StyleText + ("enable=" + Quoted(b))))));
    EscapePathColons(font);
    DrawtextNoQuotes(cue, show);
    ReadColonsOnce(font, m + rest);
    DrawtextArgsRead(ReplaceChar(font, ':', "\\\\:"), ReplaceChar(font, ':', "\\:"), e, b, rest);
  }

  /** The keys of the drawtext method, split from their `=`. */
  lemma KeyEquals(x: string)
    ensures "drawtext=" + x == "drawtext" + ("=" + x)
    ensures "fontfile=" + x == "fontfile" + ("=" + x)
    ensures "text=" + x == "text" + ("=" + x)
    ensures "enable=" + x == "enable" + ("=" + x)
  {
  }

  lemma DrawtextArgsShape(font: string, cue: Cue, show: Show)
    ensures DrawtextArgs(font, cue, show)
         == "fontfile" + ("=" + (ReplaceChar(font, ':', "\\:") + (":" + ("text" + ("=" + (EscapeDrawtext(cue.text)
            + (":" + (OptionText(StyleOptions) + ("enable" + ("=" + Between(cue, show)))))))))))
  {
    var b := Between(cue, show);
    var e := EscapeDrawtext(cue.text);
    StyleTextOptions();
    KeyEquals(b);
    KeyEquals(e + (":" + (StyleText + ("enable=" + b))));
    KeyEquals(ReplaceChar(font, ':', "\\:") + (":" + ("text=" + (e + (":" + (StyleText + ("enable=" + b)))))));
  }

  lemma DrawtextOptionsShape(font: string, cue: Cue, show: Show)
    ensures [Opt("fontfile", font)] + ([Opt("text", ReplaceChar(cue.text, '\'', "\U{2019}"))]
            + (StyleOptions + [Opt("enable", Between(cue, show))])) == DrawtextOptions(font, cue, show)
  {
  }

  /** Second level, after the text: the styling options and the `enable` expression. */
  lemma StyleThenEnable(b: string)
    requires Plain(b, ValueTerms)
    ensures ParseOptions(OptionText(StyleOptions) + ("enable" + ("=" + b))) == StyleOptions + [Opt("enable", b)]
  {
    StyleOptionsPlain();
    ReadsPlain(b, "", ValueTerms);
    OptionLast("enable", b, b);
    OptionTextReads(StyleOptions, "enable" + ("=" + b));
  }

  /** Two options in front of text that reads as `tail`. */
  lemma TwoOptionsThen(k1: string, enc1: string, v1: string, k2: string, enc2: string, v2: string,
                       r: string, tail: seq<Opt>)
    requires Plain(k1, KeyTerms) && Plain(k2, KeyTerms)
    requires Reads(enc2, v2, ":" + r, ValueTerms)
    requires Reads(enc1, v1, ":" + (k2 + ("=" + (enc2 + (":" + r)))), ValueTerms)
    requires ParseOptions(r) == tail
    ensures ParseOptions(k1 + ("=" + (enc1 + (":" + (k2 + ("=" + (enc2 + (":" + r))))))))
         == [Opt(k1, v1)] + ([Opt(k2, v2)] + tail)
  {
    OptionThen(k2, enc2, v2, r);
    OptionThen(k1, enc1, v1, k2 + ("=" + (enc2 + (":" + r))));
  }

  lemma DrawtextKeysPlain()
    ensures Plain("fontfile", KeyTerms) && Plain("text", KeyTerms)
  {
  }

  /** Second level: the drawtext arguments split into the options the method meant to give. */
  lemma DrawtextArgsOptions(font: string, cue: Cue, show: Show)
    requires '\\' !in font && '\'' !in font
    requires ShowSafe(show(cue.start)) && ShowSafe(show(cue.end))
    ensures ParseOptions(DrawtextArgs(font, cue, show)) == DrawtextOptions(font, cue, show)
  {
    var b := Between(cue, show);
    var e := EscapeDrawtext(cue.text);
    var r2 := OptionText(StyleOptions) + ("enable" + ("=" + b));
    var r1 := "text" + ("=" + (e + (":" + r2)));
    DrawtextArgsShape(font, cue, show);
    PlainBetween(cue, show);
    EscapeDrawtextEach(cue.text);
    ReadsEscapedText(cue.text, ":" + r2);
    ReadColonsTwice(font, ":" + r1);
    StyleThenEnable(b);
    DrawtextKeysPlain();
    TwoOptionsThen("fontfile", ReplaceChar(font, ':', "\\:"), font, "text", e, ReplaceChar(cue.text, '\'', "\U{2019}"),
                   r2, StyleOptions + [Opt("enable", b)]);
    DrawtextOptionsShape(font, cue, show);
  }

  // ----- the chain of drawtext filters -----

  /** One drawtext filter per cue, in order. */
  function DrawtextFilters(cues: seq<Cue>, fontPath: string, show: Show): seq<string> {
    if cues == [] then [] else [DrawtextFilter(cues[0], fontPath, show)] + DrawtextFilters(cues[1..], fontPath, show)
  }

  /** The filters joined with commas into one filter chain. */
  function DrawtextChain(cues: seq<Cue>, fontPath: string, show: Show): string {
    Join(DrawtextFilters(cues, fontPath, show), ',')
  }

  /** Every cue's times print without characters that need escaping. */
  predicate ShowsSafe(cues: seq<Cue>, show: Show) {
    forall i :: 0 <= i < |cues| ==> ShowSafe(show(cues[i].start)) && ShowSafe(show(cues[i].end))
  }

  /** The filters the chain should read as: one drawtext filter per cue. */
  function DrawtextParsed(font: string, cues: seq<Cue>, show: Show): seq<Filter> {
    if cues == [] then [] else [Filter("drawtext", DrawtextArgs(font, cues[0], show))] + DrawtextParsed(font, cues[1..], show)
  }

  lemma DrawtextKey(x: string)
    ensures "drawtext=" + x == "drawtext" + ("=" + x)
  {
  }

  lemma {:induction false} DrawtextFiltersShape(cues: seq<Cue>, fontPath: string, show: Show)
    requires cues != []
    ensures |DrawtextFilters(cues, fontPath, show)| == |cues|
    ensures DrawtextFilters(cues, fontPath, show)[0] == DrawtextFilter(cues[0], fontPath, show)
    ensures DrawtextFilters(cues, fontPath, show)[1..] == DrawtextFilters(cues[1..], fontPath, show)
    decreases |cues|
  {
    if |cues| > 1 {
      DrawtextFiltersShape(cues[1..], fontPath, show);
    }
  }

  /** A chain of one filter named `drawtext`. */
  lemma JoinDrawtextOne(parts: seq<string>, t: string)
    requires |parts| == 1 && parts[0] == "drawtext=" + t
    ensures Join(parts, ',') == "drawtext" + ("=" + t)
  {
    DrawtextKey(t);
  }

  /** A chain of at least two filters, the first of them named `drawtext`. */
  lemma JoinDrawtext(parts: seq<string>, t: string)
    requires |parts| >= 2 && parts[0] == "drawtext=" + t
    ensures Join(parts, ',') == "drawtext" + ("=" + (t + ("," + Join(parts[1..], ','))))
  {
    DrawtextKey(t + ("," + Join(parts[1..], ',')));
  }

  lemma DrawtextChainOne(cues: seq<Cue>, fontPath: string, show: Show)
    requires |cues| == 1
    ensures DrawtextChain(cues, fontPath, show) == "drawtext" + ("=" + DrawtextText(cues[0], fontPath, show))
  {
    DrawtextFiltersShape(cues, fontPath, show);
    JoinDrawtextOne(DrawtextFilters(cues, fontPath, show), DrawtextText(cues[0], fontPath, show));
  }

  lemma DrawtextChainCons(cues: seq<Cue>, fontPath: string, show: Show)
    requires |cues| >= 2
    ensures DrawtextChain(cues, fontPath, show)
         == "drawtext" + ("=" + (DrawtextText(cues[0], fontPath, show) + ("," + DrawtextChain(cues[1..], fontPath, show))))
  {
    DrawtextFiltersShape(cues, fontPath, show);
    JoinDrawtext(DrawtextFilters(cues, fontPath, show), DrawtextText(cues[0], fontPath, show));
  }

  lemma DrawtextParsedOne(font: string, cues: seq<Cue>, show: Show)
    requires |cues| == 1
    ensures DrawtextParsed(font, cues, show) == [Filter("drawtext", DrawtextArgs(font, cues[0], show))]
  {
  }

  /** The i-th filter the chain should read as belongs to the i-th cue. */
  lemma {:induction false} DrawtextParsedAt(font: string, cues: seq<Cue>, show: Show, i: nat)
    requires i < |cues|
    ensures |DrawtextParsed(font, cues, show)| == |cues|
    ensures DrawtextParsed(font, cues, show)[i] == Filter("drawtext", DrawtextArgs(font, cues[i], show))
    decreases i
  {
    if i > 0 {
      DrawtextParsedAt(font, cues[1..], show, i - 1);
    } else {
      DrawtextParsedLength(font, cues, show);
    }
  }

  lemma {:induction false} DrawtextParsedLength(font: string, cues: seq<Cue>, show: Show)
    ensures |DrawtextParsed(font, cues, show)| == |cues|
    decreases |cues|
  {
    if cues != [] {
      DrawtextParsedLength(font, cues[1..], show);
    }
  }

  lemma ShowsSafeTail(cues: seq<Cue>, show: Show)
    requires cues != [] && ShowsSafe(cues, show)
    ensures ShowSafe(show(cues[0].start)) && ShowSafe(show(cues[0].end))
    ensures ShowsSafe(cues[1..], show)
  {
    forall i | 0 <= i < |cues[1..]|
      ensures ShowSafe(show(cues[1..][i].start)) && ShowSafe(show(cues[1..][i].end))
    {
      assert cues[1..][i] == cues[i + 1];
    }
  }

  lemma DrawtextNamePlain()
    ensures Plain("drawtext", NameTerms)
  {
  }

  /**
   * First level over the whole chain: with the font path escaped for
   * Windows, the joined filters read back as one drawtext filter per cue,
   * in the order of the cues.
   */
  lemma {:induction false} DrawtextChainReads(font: string, cues: seq<Cue>, show: Show)
    requires cues != []
    requires FilterSafe(font) && '\\' !in font
    requires ShowsSafe(cues, show)
    ensures ParseChain(DrawtextChain(cues, EscapePath(font, true), show)) == DrawtextParsed(font, cues, show)
    decreases |cues|
  {
    var fp := EscapePath(font, true);
    var t := DrawtextText(cues[0], fp, show);
    var a := DrawtextArgs(font, cues[0], show);
    ShowsSafeTail(cues, show);
    DrawtextNamePlain();
    if |cues| == 1 {
      DrawtextChainOne(cues, fp, show);
      DrawtextTextReads(font, cues[0], show, "");
      ChainOfOne("drawtext", t, a);
      DrawtextParsedOne(font, cues, show);
    } else {
      var j := DrawtextChain(cues[1..], fp, show);
      DrawtextChainCons(cues, fp, show);
      DrawtextTextReads(font, cues[0], show, "," + j);
      ChainThen("drawtext", t, a, j);
      DrawtextChainReads(font, cues[1..], show);
    }
  }

  /** The font path of the drawtext method needs no escaping beyond its colon. */
  lemma FontFileSafe()
    ensures FilterSafe(FontFile) && '\\' !in FontFile && '\'' !in FontFile
  {
  }

  /** Second level for every filter of the chain. */
  lemma DrawtextParsedOptions(font: string, cues: seq<Cue>, show: Show)
    requires '\\' !in font && '\'' !in font
    requires ShowsSafe(cues, show)
    ensures |DrawtextParsed(font, cues, show)| == |cues|
    ensures forall i :: 0 <= i < |cues| ==>
              DrawtextParsed(font, cues, show)[i].name == "drawtext" &&
              ParseOptions(DrawtextParsed(font, cues, show)[i].args) == DrawtextOptions(font, cues[i], show)
  {
    DrawtextParsedLength(font, cues, show);
    forall i | 0 <= i < |cues|
      ensures DrawtextParsed(font, cues, show)[i].name == "drawtext"
      ensures ParseOptions(DrawtextParsed(font, cues, show)[i].args) == DrawtextOptions(font, cues[i], show)
    {
      DrawtextParsedAt(font, cues, show, i);
      DrawtextArgsOptions(font, cues[i], show);
    }
  }

  /**
   * Both levels over the whole chain, for the font the method names on
   * Windows: one drawtext filter per cue, in order, each with the font,
   * the cue's text (apostrophes turned into typographic quotes), the
   * styling and the cue's time window as its options.
   */
  lemma DrawtextChainOptions(cues: seq<Cue>, show: Show)
    requires cues != []
    requires ShowsSafe(cues, show)
    ensures var fs := ParseChain(DrawtextChain(cues, EscapePath(FontFile, true), show));
            |fs| == |cues| &&
            forall i :: 0 <= i < |cues| ==>
              fs[i].name == "drawtext" && ParseOptions(fs[i].args) == DrawtextOptions(FontFile, cues[i], show)
  {
    FontFileSafe();
    DrawtextChainReads(FontFile, cues, show);
    DrawtextParsedOptions(FontFile, cues, show);
  }
}
