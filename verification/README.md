# Video subtitling pipeline — a Dafny model

This project models the core of a small Flask service. The service takes an
uploaded video and extracts its audio. It transcribes the audio into timed
segments and translates every segment with Gemini. It writes the result as
an SRT subtitle file and burns the subtitles into the video with ffmpeg.

The service exists in two near-duplicate scripts:

- `app.py` names the detected source language in the translation prompt. It
  burns with the `subtitles` filter only.
- `appp.py` always calls the source English. When ffmpeg fails with the
  `subtitles` filter, it falls back to one `drawtext` filter per subtitle
  record.

In `appp.py` the second definitions of `escape_ffmpeg_path` and
`burn_subtitles` (lines 192 and 202) shadow the first ones. Those second
definitions are the ones modelled.

The model is functional. Segments are immutable records with integer times
in microseconds, the resolution of Python's `timedelta`. Every operation is
a pure function. The outside world enters as parameters:

- Gemini is a `Service`. It is handed the exact prompt and returns the reply
  text, or `None` when the call raises.
- ffmpeg is a `Runner`. It is handed the exact argument list and reports
  `Completed`, `ProcessError` (a non-zero exit, `CalledProcessError`) or
  `OtherError` (any other exception).
- Audio extraction and Whisper transcription are fields of the route's
  `Env`.
- `os.name == 'nt'` is the boolean `windows`.
- The rendering of a float time inside the drawtext `enable` expression is a
  `Show`.

The filter strings are given a partner that the scripts rely on but do not
contain: the two escaping levels of ffmpeg's filter-graph parser. These are
modelled in `FfmpegSyntax`:

- `ParseChain` splits a chain into filters.
- `ParseOptions` splits a filter's arguments into key/value options.

The escaping lemmas read the generated strings back through this parser and
recover the path, the text and the options that were put in.

Modules, in dependency order:

- `Wrappers`: the `Option` type.
- `Text`: Python's `strip`, one-character `replace`, `str.join` and decimal
  padding.
- `TextFile`: a text-mode file write and its universal-newline read.
- `Segments`: the timed segment record.
- `Translate`: the per-segment translation loop.
- `SrtTime`: `format_time` and `parse_time_to_seconds`.
- `Srt`: `generate_srt`'s content and the block grammar of
  `parse_srt_file`.
- `FfmpegSyntax`: ffmpeg's filter-graph tokenizer.
- `FfmpegFilter`: path escaping, drawtext text escaping and filter assembly.
- `Burn`: the two `burn_subtitles` variants and the drawtext method.
- `Paths`: the POSIX `os.path.splitext`, `join` and `basename`.
- `Pipeline`: the decision logic of `process_video_route` in `app.py`.

Translation is one service call per segment. Each segment falls back to
its original text on its own. `generate_srt` writes each text untrimmed.
`parse_srt_file` trims it and turns newlines into spaces.

## Model

| member | source | states |
|---|---|---|
| Translate.CleanReply | appp.py:99 | The cleaned reply contains no double quote. Its length is the stripped reply's length minus the number of quotes in it. Every other character occurs exactly as often as in the stripped reply. |
| Translate.PromptQuotesText | appp.py:94 | The prompt ends with the segment's text between two double quotes. |
| Translate.TranslateOne | appp.py:91-113 | The segment's start and end are always copied. If the service raises, or the cleaned reply is empty, the original segment is kept unchanged. Otherwise the text is the cleaned reply. |
| Translate.TranslateSegments | appp.py:83-116 | There is one output per input segment, in order, with the input's timestamps. Output i is the one-segment translation of input i. |
| Translate.TranslateFrom | app.py:97-137 | `app.py`'s loop, whose prompt names the detected source language, keeps the length and copies every timestamp. |
| Translate.TranslateEnglish | appp.py:83-116 | `appp.py`'s loop, whose prompt always says English, keeps the length and copies every timestamp. |
| Translate.FailingServiceKeepsOriginal | appp.py:111-113 | A service that always raises leaves the transcript exactly as it was. |
| Translate.ServiceAgreementGivesSameResult | appp.py:91-113 | The result depends only on the service's answers to the segments' own prompts. |
| TextFile.ReadNewlines | appp.py:325-326 | A universal-newline read leaves no carriage return. It never lengthens the text, and a text without carriage returns reads unchanged. |
| TextFile.ReadAppend | appp.py:325-326 | Reading distributes over a split that does not separate a carriage return from the line feed after it. |
| TextFile.ReadWindows | appp.py:128-132 | On Windows, writing and then reading turns every carriage return into a newline and keeps every other character. |
| TextFile.StoredClean | appp.py:128-132 | A text without carriage returns reads back exactly as it was written, on either platform. |
| TextFile.StoredAppend | appp.py:128-132 | Writing and reading distribute over a split right after a newline, so separate `write` calls compose. |
| TextFile.StoredLineEnd | appp.py:132 | A segment's text followed by a newline reads back as the text's line-level reading followed by one newline. |
| TextFile.StoredLineClean | appp.py:132 | A text without carriage returns reads back unchanged as a line. |
| TextFile.CarriageReturnsReadAsBlankLine | appp.py:132 | The text `a\r\rb` reads back as `a\n\nb` on both platforms: a blank line that ends its SRT block early. |
| Text.Strip | appp.py:99 | `str.strip` returns a contiguous middle part of its input. Neither end of the result is whitespace, and only whitespace is cut off on either side. |
| Text.StripIdempotent | appp.py:335 | Stripping a stripped text changes nothing. |
| Text.ReplaceChar | appp.py:271 | A one-character `str.replace` grows the text by the count of the pattern times the growth of one replacement. The pattern is gone unless the replacement contains it. A text without the pattern is unchanged. |
| Text.RemoveChar | appp.py:99 | `replace(c, '')` removes every `c` and keeps the count of every other character. |
| SrtTime.ToDelta | appp.py:120-121 | `timedelta` normalisation splits a time into days, seconds below 86400 and microseconds below one million, and the three add back up to the time. |
| SrtTime.TruncateToMillis | appp.py:121-123 | The time of day is truncated to whole milliseconds. It lies within one day. For a time inside the first day it is at most the time and less than a millisecond below it. |
| SrtTime.FormatTime | appp.py:119-124 | `format_time` always yields 12 characters. `app.py:139-144` is the same function. |
| SrtTime.FormatTimeFields | appp.py:119-124 | The result is `HH:MM:SS,mmm` with hours below 24, minutes and seconds below 60 and every field zero-padded. The hours, minutes and seconds are those of the seconds of the day. The milliseconds are the truncated microseconds. |
| SrtTime.ParseTime | appp.py:349-358 | `parse_time_to_seconds` gives a non-negative whole number of milliseconds. For a time code that `format_time` can produce, this lies within one day. |
| SrtTime.ParseFormat | appp.py:349-358 | Parsing a formatted time gives back the time of day truncated to milliseconds. |
| SrtTime.ParseFormatWithinDay | appp.py:349-358 | For a time inside the first day, parse(format(t)) is `t` truncated to milliseconds. |
| SrtTime.FormatParse | appp.py:349-358 | Formatting a parsed time code gives back the code, for every code `format_time` can produce. |
| Srt.TextRun | appp.py:330 | The lazy text group stops at the first blank line or at the end of the content, and no blank line starts before that point. |
| Srt.MatchAt | appp.py:330 | A match has a non-empty all-digit index and two well-formed time codes, and ends after its header. |
| Srt.FindBlocks | appp.py:330 | Every block `re.findall` returns has a digit index and two well-formed time codes. |
| Srt.ParseSrt | appp.py:320-346 | Every parsed record has non-negative times and a stripped text without a newline. |
| Srt.GeneratedTextIndices | appp.py:126-134 | The generated SRT text holds exactly one block per segment. Block i is numbered i + 1, so the indices run 1..N in input order, and it carries the formatted start and end of segment i. This needs every text to be free of blank lines. |
| Srt.ParseGeneratedText | appp.py:330-341 | Parsing the generated SRT text gives one record per segment. Each record has the segment's start and end truncated to milliseconds and the segment's text stripped, with newlines turned into spaces. This needs every text to be free of blank lines. |
| Srt.StoredBlocks | appp.py:126-134 | Written and read back, the blocks are the blocks of the segments whose texts have been read back line by line. Indices and time codes come through unchanged. |
| Srt.GeneratedIndices | appp.py:126-134 | The SRT file, written and read back on either platform, holds one block per segment. Block i is numbered i + 1 and carries the formatted start and end of segment i. This needs every text, as read back, to be free of blank lines. |
| Srt.ParseGenerate | appp.py:320-341 | Parsing the SRT file after it was written and read back gives one record per segment. Each record has the segment's times truncated to milliseconds. Its text is the segment's text as read back, stripped, with newlines turned into spaces. This needs every text, as read back, to be free of blank lines. |
| Srt.ParseGenerateClean | appp.py:320-341 | For texts without carriage returns or blank lines, each record's text is the segment's own text, stripped, with newlines turned into spaces. |
| FfmpegFilter.EscapePath | appp.py:192-200 | Off Windows the path is unchanged. On Windows a path without backslashes or colons is unchanged, and each colon adds two characters. `app.py:156-164` is the same function. |
| FfmpegFilter.SubtitlesFilterWindows | appp.py:210-213 | On Windows, ffmpeg reads the primary filter as one `subtitles` filter whose only option `filename` is the SRT path with forward slashes. This holds for a path without quotes or filter separators. |
| FfmpegFilter.SubtitlesFilterPosix | appp.py:210-213 | Off Windows, a path without colons, backslashes, quotes or separators reaches ffmpeg as the `filename` option unchanged. |
| FfmpegFilter.EscapeDrawtextEach | appp.py:271 | The five replacements in a row escape every character on its own. A backslash is doubled, an apostrophe becomes a typographic quote, and a colon, percent sign or comma gets one backslash. |
| FfmpegFilter.EscapeDrawtextShape | appp.py:271 | The escaped text has no apostrophe. Its length is the text's length plus the number of backslashes, colons, percent signs and commas. |
| FfmpegFilter.ReadsEscapedText | appp.py:271-276 | ffmpeg's option level reads the escaped text back as the original text, apostrophes aside. |
| FfmpegFilter.StyleTextOptions | appp.py:277-278 | The styling part of a drawtext filter is the six options fontsize, fontcolor, bordercolor, borderw, x and y, in order. |
| FfmpegFilter.DrawtextArgsOptions | appp.py:274-280 | One drawtext filter's arguments read as exactly these options, in order: the font file, the record's text, the six styling options, and the `between` window of the record's times. |
| FfmpegFilter.DrawtextChainReads | appp.py:268-284 | The comma-joined chain reads as one drawtext filter per record, in order. This holds when the font path has no backslash, quote or separator, and the shown times contain no filter metacharacters. |
| FfmpegFilter.DrawtextChainOptions | appp.py:265-284 | With the Windows font, the chain of N records reads as N drawtext filters. Filter i carries record i's options. |
| Burn.CommandShape | appp.py:215-222 | The command reads the video, applies one video filter, copies the audio and writes the output. |
| Burn.DrawtextMethod | appp.py:249-316 | An unreadable or record-less SRT runs nothing and returns `None`. Otherwise ffmpeg runs once with the drawtext chain of the parsed records. The output path is returned exactly when that run completes. |
| Burn.BurnWithFallback | appp.py:202-247 | The first run always uses the `subtitles` filter. A second run happens exactly when the first exits with an error status and the SRT parses to records, and that run is the drawtext method. The output path is returned exactly when the last run completes. |
| Burn.BurnNoFallback | app.py:166-207 | There is exactly one run, with the `subtitles` filter. The output path is returned exactly when it completes, and any failure gives `None`. |
| Burn.FallbackOnlyAdds | appp.py:239-243 | Both variants run the same first command and agree unless that run exits with an error status. Whenever `app.py` succeeds, `appp.py` succeeds too. |
| Burn.FirstRunReadsSubtitles | appp.py:210-222 | On Windows, ffmpeg reads the first run's filter as `subtitles` with the SRT path as `filename`. |
| Burn.FallbackRunReadsCues | appp.py:259-293 | On Windows, ffmpeg reads the fallback run's filter as one drawtext filter per parsed record, with that record's options. |
| Paths.Splitext | app.py:227 | Stem and extension concatenate to the path. The extension is empty, or it is one dot followed by neither a dot nor a slash. A non-dot character of the last component precedes it. When the last dot lies in the last component after a non-dot character, the extension is not empty. |
| Paths.SplitextExample | app.py:227 | `video.mp4` splits into `video` and `.mp4`. A leading dot (`.bashrc`) and a dot in a directory name (`dir.d/clip`) give no extension. |
| Paths.Basename | app.py:232 | The base name is a suffix of the path that contains no slash and is either the whole path or preceded by a slash, so it is everything after the last slash. |
| Paths.BasenameOfName | app.py:232 | A name without slashes is its own base name. |
| Paths.BasenameOfJoin | app.py:231-232 | Putting a file name in a directory keeps its base name. |
| Pipeline.ProcessVideo | app.py:219-262 | Every answer is a 200, 400 or 500. A 400 runs no stage and a 200 runs all seven. An SRT text exists exactly when its stage ran. |
| Pipeline.AfterTranscript | app.py:244-247 | Once a non-empty transcript exists, at least the first four stages have run. |
| Pipeline.WriteAndBurn | app.py:249-253 | Once translation is done, at least six stages have run. |
| Pipeline.StageOrder | app.py:234-257 | Stages run in the route's order. A stage ran exactly when its position is below the number run, so no stage runs before all earlier ones. |
| Pipeline.BadRequestIffMissingPart | app.py:221-225 | The answer is a 400 exactly when the request lacks the video file or the language field. |
| Pipeline.ExtractFailureStops | app.py:236-237 | A failed audio extraction answers 500 "Failed to extract audio." after two stages. Transcription and every later stage do not run, and no SRT is written. |
| Pipeline.ExtractFailedIff | app.py:236-237 | "Failed to extract audio." is the answer exactly when both form parts are present and extraction fails. |
| Pipeline.TranscriptionFailureStops | app.py:239-242 | A transcription that raised (`transcribe_audio` returns `None`, app.py:93-95) or found no segments answers 500 "Failed to transcribe audio." after three stages. Translation and every later stage do not run. |
| Pipeline.TranscribeFailedIff | app.py:239-242 | "Failed to transcribe audio." is the answer exactly when both form parts are present, extraction succeeds, and transcription raised or came back empty. |
| Pipeline.ReachesTranslation | app.py:236-245 | With both form parts, extracted audio and a non-empty transcript, the route continues with translation. |
| Pipeline.PastTranscription | app.py:236-242 | A request that got past transcription had both form parts, extracted audio and a non-empty transcript. |
| Pipeline.TranslationNeverEmpty | app.py:245-247 | Translation of a non-empty transcript is never empty, so the route always reaches the SRT stage. |
| Pipeline.TranslateFailureUnreachable | app.py:246-247 | "Failed to translate text." is never answered. |
| Pipeline.OutputUrl | app.py:231-232 | The URL is `/output/` followed by the base name of the output file. For names without slashes this is `stem_language_subtitled.mp4`. |
| Pipeline.WriteAndBurnOutcome | app.py:249-253 | The SRT text is the generated content of the translated segments. The route answers 200, with the message and the URL, exactly when ffmpeg completes the `subtitles` run. |
| Pipeline.SuccessfulRequest | app.py:249-262 | A successful request had a non-empty transcript and wrote its translation as SRT. Its `subtitles` run on the input completed, and the answer points to the output file. |
| Pipeline.SrtOfRequest | app.py:245-249 | The SRT text a request writes is the translated transcript in SRT form. |
| Pipeline.WrittenSrtReadsBack | app.py:245-249 | The written SRT file, read back on either platform, parses to one record per transcript segment. Each record has the segment's times at millisecond precision. Its text is the translated text as read back, stripped and joined into one line. This needs the translated texts, as read back, to be free of blank lines. |

## Left out

- File and network I/O is not modelled: saving the upload, removing the temporary audio, `send_from_directory` and `render_template`. The SRT file is modelled by its text, and a failed read by `None`. The text-mode newline translation of writing and reading it is modelled (`TextFile.Stored`); the UTF-8 encoding is not, because it is lossless for text.
- Whisper loading and transcription, audio extraction, the Gemini client and ffmpeg itself are oracles, because they are foreign services or tools. Only their outcomes reach the model.
- Logging is left out, because it does not affect any result.
- Floats are not modelled. `timedelta(seconds=float)` rounding to microseconds is replaced by integer microseconds. `float()` in `parse_time_to_seconds` becomes exact milliseconds. The printed floats in the drawtext `enable` expression are the `Show` parameter.
- `re.findall` is modelled only for the one pattern `parse_srt_file` uses, with `\d` and `\s` over ASCII.
- Exceptions that escape into Flask are not modelled, except a missing `language` form field, which becomes a 400.
- The Cleanup stage's `os.path.exists` check is not modelled, because it has no effect on the answer.
- ffmpeg's tokenizer is modelled without its trimming of whitespace at the ends of a token. Subtitle texts reach the filter already stripped, but a path with leading or trailing spaces would read back shorter in ffmpeg than in the model.
- ffmpeg reads an option key as a run of letters, digits and `-_/.` without unescaping; the model reads it with the same tokenizer as values. Both readings agree on every key the scripts write (`filename`, `fontfile`, `text`, `fontsize`, `fontcolor`, `bordercolor`, `borderw`, `x`, `y`, `enable`), so no stated property depends on the difference.
- The drawtext filter's own `%` expansion of its text is not modelled. Only the filter-graph escaping is.
- Paths use POSIX separators. The Windows behaviour of `os.path` is not modelled, and neither is `BASE_DIR` being an absolute directory; the route's directories are the relative names `input`, `output` and `subs`.
- `appp.py`'s own route, the shadowed first definitions in `appp.py`, `static/script.js` and `azure-config.py` are not modelled. The rest is browser wiring or deployment constants. The `appp.py` route differs from `app.py`'s in four places:
  - it takes the transcription result as a bare segment list, not as a pair of segments and detected language;
  - it translates with the English prompt (`Translate.TranslateEnglish`);
  - it burns with the drawtext fallback (`Burn.BurnWithFallback`);
  - its burn failure message lacks the words " Check ffmpeg logs.".
- FfmpegFilter.DrawtextChainOptions: stated for Windows only. Off Windows the font path `C:/Windows/Fonts/arial.ttf` is not escaped, and its colon is read as an option separator.
- Pipeline.ProcessVideo: stated over `app.py`'s route only. The `appp.py` route differs as listed above.
