/**
 * The video-generation service: the prompt template that wraps a dream's
 * description, the placeholder generator that always answers with one
 * sample clip, and the status poller that always reports completion.
 */
module VideoGeneration {
  import opened Wrappers
  import opened Text

  /** The template text before the description. */
  const PromptPrefix: string := "Create a cinematic, inspirational video showing: "

  /** The last directive line, which closes every prompt. */
  const QualityLine: string := "Quality: High-definition, professional cinematography."

  /** The template text after the description: a full stop and five directive lines. */
  const PromptSuffix: string :=
    ".\nStyle: Cinematic, dreamlike, and motivational."
    + "\nCamera: Smooth, professional camera movements with dynamic angles."
    + "\nAtmosphere: Warm, inspiring lighting with vibrant colors."
    + "\nDuration: 15-30 seconds loop-friendly sequence."
    + "\n" + QualityLine

  /** The sample clip the placeholder generator returns for every request. */
  const MockVideoUrl: string := "https://commondatastorage.googleapis.com/gtv-videos-bucket/sample/BigBuckBunny.mp4"

  /** Wraps a dream description in the cinematic prompt template. */
  function EnrichPrompt(description: string): (prompt: string)
    ensures |prompt| == |PromptPrefix| + |description| + |PromptSuffix|
    ensures |prompt| > |description|
    ensures prompt[..|PromptPrefix|] == PromptPrefix
    ensures prompt[|prompt| - |QualityLine|..] == QualityLine
    ensures OccursAt(description, prompt, |PromptPrefix|)
  {
    var p := PromptPrefix + description + PromptSuffix;
    assert p[|p| - |PromptSuffix|..] == PromptSuffix;
    assert p[|p| - |QualityLine|..] == QualityLine;
    p
  }

  /**
   * The inverse of the template: the description a prompt was built from,
   * or None when the text does not have the template's shape.
   */
  function RecoverDescription(prompt: string): (d: Option<string>)
    ensures d.Some? ==> |d.value| + |PromptPrefix| + |PromptSuffix| == |prompt|
  {
    var n := |PromptPrefix| + |PromptSuffix|;
    if |prompt| >= n
       && prompt[..|PromptPrefix|] == PromptPrefix
       && prompt[|prompt| - |PromptSuffix|..] == PromptSuffix
    then Some(prompt[|PromptPrefix|..|prompt| - |PromptSuffix|])
    else None
  }

  /** Recovering the description from an enriched prompt gives it back verbatim. */
  lemma RecoverEnriched(description: string)
    ensures RecoverDescription(EnrichPrompt(description)) == Some(description)
  {
    var p := EnrichPrompt(description);
    assert p[..|PromptPrefix|] == PromptPrefix;
    assert p[|p| - |PromptSuffix|..] == PromptSuffix;
    assert p[|PromptPrefix|..|p| - |PromptSuffix|] == description;
  }

  /** Whatever text recovers to a description is exactly that description's prompt. */
  lemma EnrichRecovered(prompt: string, description: string)
    requires RecoverDescription(prompt) == Some(description)
    ensures EnrichPrompt(description) == prompt
  {
    var a := |PromptPrefix|;
    var b := |prompt| - |PromptSuffix|;
    assert description == prompt[a..b];
    assert prompt[..a] == PromptPrefix && prompt[b..] == PromptSuffix;
    assert prompt[..b] == prompt[..a] + prompt[a..b];
    assert prompt == prompt[..b] + prompt[b..];
    assert EnrichPrompt(description) == PromptPrefix + description + PromptSuffix;
  }

  /** Distinct descriptions yield distinct prompts. */
  lemma EnrichInjective(d1: string, d2: string)
    requires EnrichPrompt(d1) == EnrichPrompt(d2)
    ensures d1 == d2
  {
    RecoverEnriched(d1);
    RecoverEnriched(d2);
  }

  /** The parameters of a generation request. */
  datatype GenerationParams = GenerationParams(dreamDescription: string, photoUrl: Option<string>)

  /**
   * The placeholder generator: it enriches the description (only to log it)
   * and answers with the sample clip.
   */
  function GenerateVideo(params: GenerationParams): (videoUrl: string)
    ensures videoUrl == MockVideoUrl
  {
    var _ := EnrichPrompt(params.dreamDescription);
    MockVideoUrl
  }

  /** The answer depends on neither the description nor the reference photo. */
  lemma GenerateVideoIgnoresInput(p1: GenerationParams, p2: GenerationParams)
    ensures GenerateVideo(p1) == GenerateVideo(p2)
    ensures |GenerateVideo(p1)| > 0
  {
  }

  /** The four statuses the poller's return type admits. */
  datatype VideoStatus = Pending | Generating | Completed | Failed

  /** The text each status is stored and compared as. */
  function StatusText(s: VideoStatus): string {
    match s
    case Pending => "pending"
    case Generating => "generating"
    case Completed => "completed"
    case Failed => "failed"
  }

  /** The status a stored text names, if any. */
  function ParseStatus(t: string): Option<VideoStatus> {
    if t == "pending" then Some(Pending)
    else if t == "generating" then Some(Generating)
    else if t == "completed" then Some(Completed)
    else if t == "failed" then Some(Failed)
    else None
  }

  lemma ParseStatusText(s: VideoStatus)
    ensures ParseStatus(StatusText(s)) == Some(s)
  {
  }

  lemma StatusTextParsed(t: string, s: VideoStatus)
    requires ParseStatus(t) == Some(s)
    ensures StatusText(s) == t
  {
  }

  /** The placeholder poller: every dream is reported as completed. */
  function PollGenerationStatus(dreamId: string): (s: VideoStatus)
    ensures StatusText(s) == "completed"
  {
    Completed
  }
}
