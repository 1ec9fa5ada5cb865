/**
 * Per-segment translation with fallback: `translate_segments_via_gemini`
 * in both script variants. The Gemini call is an oracle `Service` that is
 * handed the exact prompt and either answers with the reply text or raises
 * (`None`).
 */
module Translate {
  import opened Wrappers
  import opened Text
  import opened Segments

  type Service = string -> Option<string>

  /**
   * The prompt sent for one segment. `app.py` names the detected source
   * language; `appp.py` always says "English" in the same two places.
   * The segment's text ends the prompt, inside double quotes.
   */
  function Prompt(src: string, tgt: string, text: string): string {
    "Translate the following " + src + " text to " + tgt + ". "
    + Instructions
    + src + " text: \"" + text + "\""
  }

  /** The fixed instructions in the middle of every prompt. */
  const Instructions: string :=
    "Do not add any extra explanations, introductory phrases, or translations of the instructions. "
    + "Only return the translated text itself.\n\n"

  /** The segment's text ends the prompt, between double quotes. */
  lemma PromptQuotesText(src: string, tgt: string, text: string)
    ensures var p := Prompt(src, tgt, text);
            && |p| > |text| + 1
            && p[|p| - |text| - 2] == '"' && p[|p| - 1] == '"'
            && p[|p| - |text| - 1..|p| - 1] == text
  {
    var head := "Translate the following " + src + " text to " + tgt + ". " + Instructions + src + " text: ";
    assert Prompt(src, tgt, text) == head + "\"" + text + "\"";
  }

  /**
   * The reply clean-up `response.text.strip().replace('"', '')`: surrounding
   * whitespace is stripped first, then every double quote is deleted.
   */
  function CleanReply(reply: string): (r: string)
    ensures '"' !in r
    ensures |r| == |Strip(reply)| - Count(Strip(reply), '"')
    ensures forall x :: x != '"' ==> Count(r, x) == Count(Strip(reply), x)
  {
    RemoveChar(Strip(reply), '"')
  }

  /**
   * One iteration of the loop: the service's cleaned reply replaces the
   * text and the timestamps are copied; when the call raises, or the cleaned
   * reply is empty, the original segment is appended as it is.
   */
  function TranslateOne(seg: Segment, src: string, tgt: string, service: Service): (r: Segment)
    ensures r.start == seg.start && r.end == seg.end
    ensures service(Prompt(src, tgt, seg.text)).None? ==> r == seg
    ensures service(Prompt(src, tgt, seg.text)).Some? ==>
              var cleaned := CleanReply(service(Prompt(src, tgt, seg.text)).value);
              (cleaned == [] ==> r == seg) && (cleaned != [] ==> r.text == cleaned)
  {
    match service(Prompt(src, tgt, seg.text))
    case None => seg
    case Some(reply) =>
      var cleaned := CleanReply(reply);
      if cleaned != [] then Segment(seg.start, seg.end, cleaned) else seg
  }

  /**
   * The loop over all segments: the result has one entry per input segment,
   * in order, each with the input segment's timestamps.
   */
  function TranslateSegments(segs: seq<Segment>, src: string, tgt: string, service: Service): (r: seq<Segment>)
    ensures SameTiming(r, segs)
    ensures forall i :: 0 <= i < |segs| ==> r[i] == TranslateOne(segs[i], src, tgt, service)
  {
    if segs == [] then []
    else
      var rest := TranslateSegments(segs[1..], src, tgt, service);
      [TranslateOne(segs[0], src, tgt, service)] + rest
  }

  /** `app.py`'s variant: the prompt names the transcriber's detected language. */
  function TranslateFrom(segs: seq<Segment>, src: string, tgt: string, service: Service): (r: seq<Segment>)
    ensures SameTiming(r, segs)
  {
    TranslateSegments(segs, src, tgt, service)
  }

  /** `appp.py`'s variant: the prompt always calls the source text English. */
  function TranslateEnglish(segs: seq<Segment>, tgt: string, service: Service): (r: seq<Segment>)
    ensures SameTiming(r, segs)
  {
    TranslateSegments(segs, "English", tgt, service)
  }

  /** A service that always raises leaves the transcript exactly as it was. */
  lemma {:induction false} FailingServiceKeepsOriginal(segs: seq<Segment>, src: string, tgt: string, service: Service)
    requires forall p :: service(p).None?
    ensures TranslateSegments(segs, src, tgt, service) == segs
  {
    var r := TranslateSegments(segs, src, tgt, service);
    forall i | 0 <= i < |segs| ensures r[i] == segs[i] {
      assert service(Prompt(src, tgt, segs[i].text)).None?;
    }
  }

  /**
   * Only the service's answers matter: two services that answer every
   * segment's prompt alike give the same translation.
   */
  lemma ServiceAgreementGivesSameResult(segs: seq<Segment>, src: string, tgt: string, s1: Service, s2: Service)
    requires forall i :: 0 <= i < |segs| ==> s1(Prompt(src, tgt, segs[i].text)) == s2(Prompt(src, tgt, segs[i].text))
    ensures TranslateSegments(segs, src, tgt, s1) == TranslateSegments(segs, src, tgt, s2)
  {
    var a := TranslateSegments(segs, src, tgt, s1);
    var b := TranslateSegments(segs, src, tgt, s2);
    forall i | 0 <= i < |segs| ensures a[i] == b[i] {
    }
  }
}
