/**
 * Burning the subtitles into the video: `burn_subtitles` of both script
 * variants and the `drawtext` fallback of `appp.py`. Running ffmpeg is an
 * oracle `Runner` that is handed the exact argument list and reports how
 * the process ended; reading the SRT file is its content, or `None` when
 * the read fails.
 */
module Burn {
  import opened Wrappers
  import opened Text
  import opened Srt
  import opened FfmpegSyntax
  import opened FfmpegFilter

  /**
   * How one `subprocess.run(..., check=True)` ends: the process exits with
   * status 0, it exits with another status (`CalledProcessError`), or some
   * other exception is raised (for instance, no ffmpeg executable).
   */
  datatype RunOutcome = Completed | ProcessError | OtherError

  type Runner = seq<string> -> RunOutcome

  /** What a burning step did: the ffmpeg commands it ran, in order, and what it returned. */
  datatype Burned = Burned(runs: seq<seq<string>>, result: Option<string>)

  /** The ffmpeg command line of every method: one video filter, the audio copied. */
  function FfmpegCommand(video: string, filter: string, output: string): seq<string> {
    ["ffmpeg", "-y", "-i", video, "-vf", filter, "-c:a", "copy", output]
  }

  /** `cmd` reads `video`, writes `output`, copies the audio and applies one video filter. */
  predicate IsFfmpegRun(cmd: seq<string>, video: string, output: string) {
    |cmd| == 9 && cmd[..4] == ["ffmpeg", "-y", "-i", video] && cmd[4] == "-vf"
    && cmd[6..] == ["-c:a", "copy", output]
  }

  /** The video filter of a command line: the argument after `-vf`. */
  function FilterOf(cmd: seq<string>): Option<string> {
    if |cmd| > 5 && cmd[4] == "-vf" then Some(cmd[5]) else None
  }

  /** A burning step returns the output path exactly when the last ffmpeg run it made completed. */
  predicate ReportsLastRun(b: Burned, output: string, run: Runner) {
    && (b.result.Some? ==> b.result.value == output)
    && (b.result.Some? <==> (b.runs != [] && run(b.runs[|b.runs| - 1]) == Completed))
  }

  lemma CommandShape(video: string, filter: string, output: string)
    ensures IsFfmpegRun(FfmpegCommand(video, filter, output), video, output)
    ensures FilterOf(FfmpegCommand(video, filter, output)) == Some(filter)
  {
  }

  /**
   * The fallback method: parse the SRT content, give up when that fails or
   * yields no record, otherwise run ffmpeg once with one drawtext filter per
   * record, joined by commas.
   */
  function DrawtextMethod(video: string, content: Option<string>, output: string, windows: bool,
                          run: Runner, show: Show): (b: Burned)
    ensures ReportsLastRun(b, output, run)
    ensures |b.runs| <= 1
    ensures b.runs != [] <==> content.Some? && ParseSrt(content.value) != []
    ensures forall i :: 0 <= i < |b.runs| ==> IsFfmpegRun(b.runs[i], video, output)
    ensures b.runs != [] ==>
              FilterOf(b.runs[0]) == Some(DrawtextChain(ParseSrt(content.value), EscapePath(FontFile, windows), show))
  {
    if content.None? then Burned([], None)
    else
      var cues := ParseSrt(content.value);
      if cues == [] then Burned([], None)
      else
        var cmd := FfmpegCommand(video, DrawtextChain(cues, EscapePath(FontFile, windows), show), output);
        CommandShape(video, DrawtextChain(cues, EscapePath(FontFile, windows), show), output);
        Burned([cmd], if run(cmd) == Completed then Some(output) else None)
  }

  /** A failed run followed by the runs of another step reports what that step reports. */
  lemma AfterFailedRun(cmd: seq<string>, d: Burned, video: string, output: string, run: Runner)
    requires run(cmd) != Completed && IsFfmpegRun(cmd, video, output)
    requires ReportsLastRun(d, output, run)
    requires forall i :: 0 <= i < |d.runs| ==> IsFfmpegRun(d.runs[i], video, output)
    ensures var runs := [cmd] + d.runs;
            && runs[..1] == [cmd] && runs[0] == cmd
            && ReportsLastRun(Burned(runs, d.result), output, run)
            && forall i :: 0 <= i < |runs| ==> IsFfmpegRun(runs[i], video, output)
  {
    var runs := [cmd] + d.runs;
    assert runs[..1] == [cmd];
    forall i | 0 <= i < |runs| ensures IsFfmpegRun(runs[i], video, output) {
      if i > 0 {
        assert runs[i] == d.runs[i - 1];
      }
    }
  }

  /**
   * `burn_subtitles` of `appp.py`: the `subtitles` filter first; when ffmpeg
   * exits with an error the drawtext method is tried; any other exception
   * gives up at once.
   */
  function BurnWithFallback(video: string, srtPath: string, content: Option<string>, output: string,
                            windows: bool, run: Runner, show: Show): (b: Burned)
    ensures ReportsLastRun(b, output, run)
    ensures 1 <= |b.runs| <= 2
    ensures forall i :: 0 <= i < |b.runs| ==> IsFfmpegRun(b.runs[i], video, output)
    ensures FilterOf(b.runs[0]) == Some(SubtitlesFilter(srtPath, windows))
    ensures |b.runs| == 2 <==>
              run(b.runs[0]) == ProcessError && content.Some? && ParseSrt(content.value) != []
    ensures run(b.runs[0]) == ProcessError ==>
              b == Burned(b.runs[..1] + DrawtextMethod(video, content, output, windows, run, show).runs,
                          DrawtextMethod(video, content, output, windows, run, show).result)
  {
    var cmd := FfmpegCommand(video, SubtitlesFilter(srtPath, windows), output);
    CommandShape(video, SubtitlesFilter(srtPath, windows), output);
    var status := run(cmd);
    if status == ProcessError then
      var d := DrawtextMethod(video, content, output, windows, run, show);
      AfterFailedRun(cmd, d, video, output, run);
      Burned([cmd] + d.runs, d.result)
    else
      Burned([cmd], if status == Completed then Some(output) else None)
  }

  /** `burn_subtitles` of `app.py`: the `subtitles` filter only, `None` on any failure. */
  function BurnNoFallback(video: string, srtPath: string, output: string, windows: bool, run: Runner): (b: Burned)
    ensures ReportsLastRun(b, output, run)
    ensures |b.runs| == 1 && IsFfmpegRun(b.runs[0], video, output)
    ensures FilterOf(b.runs[0]) == Some(SubtitlesFilter(srtPath, windows))
  {
    var cmd := FfmpegCommand(video, SubtitlesFilter(srtPath, windows), output);
    CommandShape(video, SubtitlesFilter(srtPath, windows), output);
    Burned([cmd], if run(cmd) == Completed then Some(output) else None)
  }

  /**
   * Both variants agree whenever the first ffmpeg run does not end with an
   * error status; `appp.py` can only do better, never worse.
   */
  lemma FallbackOnlyAdds(video: string, srtPath: string, content: Option<string>, output: string,
                         windows: bool, run: Runner, show: Show)
    ensures var with := BurnWithFallback(video, srtPath, content, output, windows, run, show);
            var without := BurnNoFallback(video, srtPath, output, windows, run);
            && with.runs[0] == without.runs[0]
            && (run(without.runs[0]) != ProcessError ==> with == without)
            && (without.result.Some? ==> with.result == without.result)
  {
  }

  /**
   * On Windows the filter of the first run reads, at both escaping levels,
   * as one `subtitles` filter whose `filename` is the SRT path with forward
   * slashes.
   */
  lemma FirstRunReadsSubtitles(video: string, srtPath: string, content: Option<string>, output: string,
                               run: Runner, show: Show)
    requires FilterSafe(srtPath)
    ensures var b := BurnWithFallback(video, srtPath, content, output, true, run, show);
            var fs := ParseChain(FilterOf(b.runs[0]).value);
            |fs| == 1 && fs[0].name == "subtitles" &&
            ParseOptions(fs[0].args) == [Opt("filename", ReplaceChar(srtPath, '\\', "/"))]
  {
    SubtitlesFilterWindows(srtPath);
  }

  /**
   * On Windows the filter of the fallback run reads as one drawtext filter
   * per record of the SRT content, in order, each with the font, the
   * record's text, the styling and the record's time window.
   */
  lemma FallbackRunReadsCues(video: string, srtPath: string, content: string, output: string,
                             run: Runner, show: Show)
    requires ShowsSafe(ParseSrt(content), show)
    ensures var b := BurnWithFallback(video, srtPath, Some(content), output, true, run, show);
            var cues := ParseSrt(content);
            |b.runs| == 2 ==>
              var fs := ParseChain(FilterOf(b.runs[1]).value);
              |fs| == |cues| &&
              forall i :: 0 <= i < |cues| ==>
                fs[i].name == "drawtext" && ParseOptions(fs[i].args) == DrawtextOptions(FontFile, cues[i], show)
  {
    var b := BurnWithFallback(video, srtPath, Some(content), output, true, run, show);
    var cues := ParseSrt(content);
    if |b.runs| == 2 {
      var d := DrawtextMethod(video, Some(content), output, true, run, show);
      assert b.runs[1] == d.runs[0];
      DrawtextChainOptions(cues, show);
    }
  }
}
