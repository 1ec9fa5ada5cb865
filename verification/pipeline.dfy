/**
 * The decisions of `process_video_route` in `app.py`: which stages run, in
 * which order, and which response ends the request. Saving, audio
 * extraction, transcription, translation and ffmpeg are oracles in `Env`.
 */
module Pipeline {
  import opened Wrappers
  import opened Text
  import opened Segments
  import opened Translate
  import opened SrtTime
  import opened Srt
  import opened TextFile
  import opened FfmpegFilter
  import opened Burn
  import opened Paths

  /** The uploaded file, when the form has a `video` part. */
  datatype Upload = Upload(filename: string)

  /** The parts of the POST request the route reads. */
  datatype Request = Request(video: Option<Upload>, language: Option<string>)

  /** Whisper's result: the segments and the detected language. */
  datatype Transcript = Transcript(segments: seq<Segment>, language: string)

  /**
   * The outside world: `extract_audio` (input and audio path to success),
   * `transcribe_audio` (`None` when it raised), the translation service and
   * the ffmpeg runner.
   */
  datatype Env = Env(extract: (string, string) -> bool, transcribe: string -> Option<Transcript>,
                     service: Service, run: Runner)

  /** The stages of the route, in the order the code runs them. */
  datatype Stage = SaveUpload | ExtractAudio | Transcribe | TranslateText | WriteSrt | BurnSubtitles | Cleanup

  const AllStages: seq<Stage> := [SaveUpload, ExtractAudio, Transcribe, TranslateText, WriteSrt, BurnSubtitles, Cleanup]

  /**
   * The response: a JSON error with its status, Flask's own "400 Bad Request"
   * page for a form without `language`, or the JSON success body.
   */
  datatype Response = JsonError(status: int, error: string) | BadRequest | Success(message: string, videoUrl: string) {
    function Status(): int {
      match this
      case JsonError(s, _) => s
      case BadRequest => 400
      case Success(_, _) => 200
    }
  }

  /**
   * What handling one request did: how many stages ran (always the first
   * ones, in order), the response, and the SRT text written.
   */
  datatype Handled = Handled(ran: int, response: Response, srt: Option<string>) {
    function Stages(): seq<Stage>
      requires 0 <= ran <= |AllStages|
    {
      AllStages[..ran]
    }
  }

  const NoVideo := "No video file provided"
  const ExtractFailed := "Failed to extract audio."
  const TranscribeFailed := "Failed to transcribe audio."
  const TranslateFailed := "Failed to translate text."
  const BurnFailed := "Failed to burn subtitles into video. Check ffmpeg logs."
  const Processed := "Video processed successfully!"

  /** The directories of the route, relative to the script's directory; audio goes to the output directory. */
  const InputDir := "input"
  const OutputDir := "output"
  const SubsDir := "subs"
  const AudioTempDir := "output"

  /** The file names derived from the upload's name and the target language. */
  function Base(filename: string): string { Splitext(filename).0 }
  function InputPath(filename: string): string { PathJoin(InputDir, filename) }
  function AudioPath(filename: string): string { PathJoin(AudioTempDir, Base(filename) + "_temp_audio.wav") }
  function SrtPath(filename: string, lang: string): string { PathJoin(SubsDir, Base(filename) + "_" + lang + ".srt") }
  function OutputPath(filename: string, lang: string): string {
    PathJoin(OutputDir, Base(filename) + "_" + lang + "_subtitled.mp4")
  }

  /** The URL the success body points the browser to. */
  function VideoUrl(filename: string, lang: string): string {
    "/output/" + Basename(OutputPath(filename, lang))
  }

  /** Every route outcome: a 400 runs nothing, a 200 runs everything, the SRT exists once its stage ran. */
  predicate StagesFit(h: Handled) {
    && 0 <= h.ran <= |AllStages|
    && h.response.Status() in {200, 400, 500}
    && (h.response.Status() == 400 <==> h.ran == 0)
    && (h.response.Status() == 200 <==> h.ran == |AllStages|)
    && (h.srt.Some? <==> h.ran > 4)
  }

  /** `process_video_route`, `windows` standing for `os.name == 'nt'`. */
  function ProcessVideo(req: Request, env: Env, windows: bool): (h: Handled)
    ensures StagesFit(h)
  {
    if req.video.None? then Handled(0, JsonError(400, NoVideo), None)
    else if req.language.None? then Handled(0, BadRequest, None)
    else
      var name := req.video.value.filename;
      var audio := AudioPath(name);
      if !env.extract(InputPath(name), audio) then
        Handled(2, JsonError(500, ExtractFailed), None)
      else
        var t := env.transcribe(audio);
        if t.None? || t.value.segments == [] then
          Handled(3, JsonError(500, TranscribeFailed), None)
        else
          AfterTranscript(name, req.language.value, t.value, env, windows)
  }

  /** The stages after a non-empty transcript: translate, write the SRT, burn, clean up. */
  function AfterTranscript(name: string, lang: string, t: Transcript, env: Env, windows: bool): (h: Handled)
    requires t.segments != []
    ensures StagesFit(h)
    ensures h.ran >= 4
  {
    var translated := TranslateFrom(t.segments, t.language, lang, env.service);
    if translated == [] then
      Handled(4, JsonError(500, TranslateFailed), None)
    else
      WriteAndBurn(name, lang, translated, env.run, windows)
  }

  /** The stages after translation: write the SRT file, burn it in, clean up. */
  function WriteAndBurn(name: string, lang: string, translated: seq<Segment>, run: Runner, windows: bool): (h: Handled)
    ensures StagesFit(h)
    ensures h.ran >= 6
  {
    var srt := GenerateSrt(translated);
    var burned := BurnNoFallback(InputPath(name), SrtPath(name, lang), OutputPath(name, lang), windows, run);
    if burned.result.None? then
      Handled(6, JsonError(500, BurnFailed), Some(srt))
    else
      Handled(7, Success(Processed, VideoUrl(name, lang)), Some(srt))
  }

  // ----- properties of the route -----

  /** The position of each stage in the route, written out stage by stage. */
  function Index(s: Stage): nat {
    match s
    case SaveUpload => 0
    case ExtractAudio => 1
    case Transcribe => 2
    case TranslateText => 3
    case WriteSrt => 4
    case BurnSubtitles => 5
    case Cleanup => 6
  }

  lemma AllStagesIndexed()
    ensures |AllStages| == 7
    ensures forall s: Stage :: AllStages[Index(s)] == s
    ensures forall i :: 0 <= i < 7 ==> Index(AllStages[i]) == i
  {
  }

  /**
   * Stages run in the route's order: a stage ran exactly when its position
   * is below the number of stages run, so no stage runs unless every
   * earlier one ran.
   */
  lemma StageOrder(req: Request, env: Env, windows: bool, s: Stage, earlier: Stage)
    requires Index(earlier) < Index(s)
    ensures var h := ProcessVideo(req, env, windows);
            && (s in h.Stages() <==> Index(s) < h.ran)
            && (s in h.Stages() ==> earlier in h.Stages())
  {
    var h := ProcessVideo(req, env, windows);
    AllStagesIndexed();
    var st := h.Stages();
    if s in st {
      var i :| 0 <= i < |st| && st[i] == s;
      assert Index(s) == i;
      assert st[Index(earlier)] == earlier;
    }
    if Index(s) < h.ran {
      assert st[Index(s)] == s;
    }
  }

  /** A 400 answers exactly the requests without a video file or a language field. */
  lemma BadRequestIffMissingPart(req: Request, env: Env, windows: bool)
    ensures ProcessVideo(req, env, windows).response.Status() == 400 <==> req.video.None? || req.language.None?
  {
  }

  /** A failed audio extraction ends the request: transcription and every later stage do not run. */
  lemma ExtractFailureStops(req: Request, env: Env, windows: bool)
    requires req.video.Some? && req.language.Some?
    requires var name := req.video.value.filename;
             !env.extract(InputPath(name), AudioPath(name))
    ensures var h := ProcessVideo(req, env, windows);
            && h.response == JsonError(500, ExtractFailed) && h.ran == 2
            && h.Stages() == [SaveUpload, ExtractAudio] && Transcribe !in h.Stages() && h.srt.None?
  {
    AllStagesIndexed();
  }

  /**
   * A transcription that raised (`None`) or found no speech counts as a
   * failed transcription: translation and every later stage do not run.
   */
  lemma TranscriptionFailureStops(req: Request, env: Env, windows: bool)
    requires req.video.Some? && req.language.Some?
    requires var name := req.video.value.filename;
             var t := env.transcribe(AudioPath(name));
             env.extract(InputPath(name), AudioPath(name)) && (t.None? || t.value.segments == [])
    ensures var h := ProcessVideo(req, env, windows);
            && h.response == JsonError(500, TranscribeFailed) && h.ran == 3
            && h.Stages() == [SaveUpload, ExtractAudio, Transcribe] && TranslateText !in h.Stages() && h.srt.None?
  {
    AllStagesIndexed();
  }

  /** "Failed to extract audio." answers exactly the complete requests whose audio extraction failed. */
  lemma ExtractFailedIff(req: Request, env: Env, windows: bool)
    ensures ProcessVideo(req, env, windows).response == JsonError(500, ExtractFailed) <==>
              && req.video.Some? && req.language.Some?
              && !env.extract(InputPath(req.video.value.filename), AudioPath(req.video.value.filename))
  {
    var h := ProcessVideo(req, env, windows);
    if h.ran > 3 {
      PastTranscription(req, env, windows);
    }
  }

  /**
   * "Failed to transcribe audio." answers exactly the complete requests whose
   * audio was extracted and whose transcription raised or came back empty.
   */
  lemma TranscribeFailedIff(req: Request, env: Env, windows: bool)
    ensures ProcessVideo(req, env, windows).response == JsonError(500, TranscribeFailed) <==>
              && req.video.Some? && req.language.Some?
              && var name := req.video.value.filename;
                 var t := env.transcribe(AudioPath(name));
                 env.extract(InputPath(name), AudioPath(name)) && (t.None? || t.value.segments == [])
  {
    var h := ProcessVideo(req, env, windows);
    if h.ran > 3 {
      PastTranscription(req, env, windows);
    }
  }

  /** Past a non-empty transcript, translation cannot come back empty. */
  lemma TranslationNeverEmpty(name: string, lang: string, t: Transcript, env: Env, windows: bool)
    requires t.segments != []
    ensures AfterTranscript(name, lang, t, env, windows).ran >= 6
  {
    var translated := TranslateFrom(t.segments, t.language, lang, env.service);
    assert |translated| == |t.segments|;
  }

  /** With both form parts, extracted audio and a non-empty transcript, the route goes on past translation. */
  lemma ReachesTranslation(req: Request, env: Env, windows: bool)
    requires req.video.Some? && req.language.Some?
    requires var name := req.video.value.filename;
             var t := env.transcribe(AudioPath(name));
             env.extract(InputPath(name), AudioPath(name)) && t.Some? && t.value.segments != []
    ensures var name := req.video.value.filename;
            var t := env.transcribe(AudioPath(name)).value;
            ProcessVideo(req, env, windows) == AfterTranscript(name, req.language.value, t, env, windows)
  {
  }

  /** A request that ran past transcription had both form parts, extracted audio and a non-empty transcript. */
  lemma PastTranscription(req: Request, env: Env, windows: bool)
    requires ProcessVideo(req, env, windows).ran > 3
    ensures req.video.Some? && req.language.Some?
    ensures var name := req.video.value.filename;
            var t := env.transcribe(AudioPath(name));
            env.extract(InputPath(name), AudioPath(name)) && t.Some? && t.value.segments != []
  {
  }

  /**
   * The "Failed to translate text." answer is never given: the transcript is
   * non-empty at that point and translation keeps one segment per segment.
   */
  lemma TranslateFailureUnreachable(req: Request, env: Env, windows: bool)
    ensures ProcessVideo(req, env, windows).response != JsonError(500, TranslateFailed)
    ensures ProcessVideo(req, env, windows).ran != 4
  {
    var h := ProcessVideo(req, env, windows);
    if h.ran > 3 {
      PastTranscription(req, env, windows);
      ReachesTranslation(req, env, windows);
      var name := req.video.value.filename;
      TranslationNeverEmpty(name, req.language.value, env.transcribe(AudioPath(name)).value, env, windows);
    }
  }

  /** The name of the output file as the success body gives it. */
  lemma OutputUrl(name: string, lang: string)
    ensures VideoUrl(name, lang) == "/output/" + Basename(Base(name) + "_" + lang + "_subtitled.mp4")
    ensures '/' !in name && '/' !in lang ==> VideoUrl(name, lang) == "/output/" + Base(name) + "_" + lang + "_subtitled.mp4"
  {
    var file := Base(name) + "_" + lang + "_subtitled.mp4";
    assert file != [] && file[|file| - 1] != '/' by {
      assert file[|file| - 1] == "_subtitled.mp4"[13];
    }
    BasenameOfJoin(OutputDir, file);
    if '/' !in name && '/' !in lang {
      assert '/' !in file by {
        var parts := Splitext(name);
        assert parts.0 + parts.1 == name;
        assert '/' !in parts.0;
      }
      BasenameOfName(file);
      PrefixAssoc("/output/", Base(name), "_", lang, "_subtitled.mp4");
    }
  }

  lemma PrefixAssoc(a: string, b: string, c: string, d: string, e: string)
    ensures a + (b + c + d + e) == a + b + c + d + e
  {
  }

  /** The last stages succeed exactly when ffmpeg completes, and then write the SRT and answer with the URL. */
  lemma WriteAndBurnOutcome(name: string, lang: string, translated: seq<Segment>, run: Runner, windows: bool)
    ensures var h := WriteAndBurn(name, lang, translated, run, windows);
            && h.srt == Some(GenerateSrt(translated))
            && (h.response.Status() == 200 <==>
                  run(FfmpegCommand(InputPath(name), SubtitlesFilter(SrtPath(name, lang), windows), OutputPath(name, lang))) == Completed)
            && (h.response.Status() == 200 ==> h.response == Success(Processed, VideoUrl(name, lang)))
  {
  }

  /**
   * A successful request wrote the translated transcript as SRT text, ran
   * ffmpeg once on the input with the `subtitles` filter for the SRT path,
   * and points to the output file by its name in the output directory.
   */
  lemma SuccessfulRequest(req: Request, env: Env, windows: bool)
    requires ProcessVideo(req, env, windows).response.Status() == 200
    ensures req.video.Some? && req.language.Some?
    ensures var name := req.video.value.filename;
            var lang := req.language.value;
            var t := env.transcribe(AudioPath(name));
            var h := ProcessVideo(req, env, windows);
            && t.Some? && t.value.segments != []
            && h.srt == Some(GenerateSrt(TranslateFrom(t.value.segments, t.value.language, lang, env.service)))
            && env.run(FfmpegCommand(InputPath(name), SubtitlesFilter(SrtPath(name, lang), windows), OutputPath(name, lang))) == Completed
            && h.response == Success(Processed, "/output/" + Basename(Base(name) + "_" + lang + "_subtitled.mp4"))
            && ('/' !in name && '/' !in lang ==>
                  h.response.videoUrl == "/output/" + Base(name) + "_" + lang + "_subtitled.mp4")
  {
    PastTranscription(req, env, windows);
    ReachesTranslation(req, env, windows);
    var name := req.video.value.filename;
    var lang := req.language.value;
    var t := env.transcribe(AudioPath(name)).value;
    var translated := TranslateFrom(t.segments, t.language, lang, env.service);
    assert |translated| == |t.segments|;
    assert AfterTranscript(name, lang, t, env, windows) == WriteAndBurn(name, lang, translated, env.run, windows);
    WriteAndBurnOutcome(name, lang, translated, env.run, windows);
    OutputUrl(name, lang);
  }

  /**
   * The SRT file of a request reads back, through a text-mode read and
   * `parse_srt_file`, as one record per transcript segment with the
   * segment's times at millisecond precision and its translated text as
   * read back, stripped and joined into one line.
   */
  lemma WrittenSrtReadsBack(req: Request, env: Env, windows: bool)
    requires req.video.Some? && req.language.Some?
    requires var t := env.transcribe(AudioPath(req.video.value.filename));
             t.Some? && forall i :: 0 <= i < |t.value.segments| ==>
               NoBlankLine(StoredLine(TranslateFrom(t.value.segments, t.value.language, req.language.value, env.service)[i].text, windows))
    ensures var h := ProcessVideo(req, env, windows);
            var t := env.transcribe(AudioPath(req.video.value.filename)).value;
            var tr := TranslateFrom(t.segments, t.language, req.language.value, env.service);
            h.srt.Some? ==>
              var cues := ParseSrt(Stored(h.srt.value, windows));
              |cues| == |t.segments| &&
              forall i :: 0 <= i < |cues| ==>
                cues[i] == Cue(TruncateToMillis(t.segments[i].start), TruncateToMillis(t.segments[i].end),
                               ReplaceChar(Strip(StoredLine(tr[i].text, windows)), '\n', " "))
  {
    var h := ProcessVideo(req, env, windows);
    if h.srt.Some? {
      var t := env.transcribe(AudioPath(req.video.value.filename)).value;
      var tr := TranslateFrom(t.segments, t.language, req.language.value, env.service);
      SrtOfRequest(req, env, windows);
      ParseGenerate(tr, windows);
    }
  }

  /** The SRT text a request writes is the translated transcript in SRT form. */
  lemma SrtOfRequest(req: Request, env: Env, windows: bool)
    requires ProcessVideo(req, env, windows).srt.Some?
    ensures req.video.Some? && req.language.Some?
    ensures var t := env.transcribe(AudioPath(req.video.value.filename));
            && t.Some?
            && ProcessVideo(req, env, windows).srt
               == Some(GenerateSrt(TranslateFrom(t.value.segments, t.value.language, req.language.value, env.service)))
  {
    PastTranscription(req, env, windows);
    ReachesTranslation(req, env, windows);
    var name := req.video.value.filename;
    var lang := req.language.value;
    var t := env.transcribe(AudioPath(name)).value;
    var tr := TranslateFrom(t.segments, t.language, lang, env.service);
    assert |tr| == |t.segments|;
    assert AfterTranscript(name, lang, t, env, windows) == WriteAndBurn(name, lang, tr, env.run, windows);
    WriteAndBurnOutcome(name, lang, tr, env.run, windows);
  }
}
