/**
 * The dream viewer: which of its three screens a dream's `video_status`
 * selects, what each screen shows, and the breathing cue that alternates
 * on every timer tick.
 */
module ImmersiveDreamVideo {
  import opened Wrappers
  import opened Records
  import opened VideoGeneration

  /** `isGenerating`: the status is "generating" or "pending". */
  predicate IsGenerating(status: Option<string>) {
    status == Some("generating") || status == Some("pending")
  }

  /** `isFailed`: the status is "failed". */
  predicate IsFailed(status: Option<string>) {
    status == Some("failed")
  }

  /** The three screens the component can return. */
  datatype View = GeneratingView | FailedView | VideoView

  /** The branch the component takes: generating is checked first, then failed, else the video. */
  function SelectView(status: Option<string>): (v: View)
    ensures v.GeneratingView? <==> IsGenerating(status)
    ensures v.FailedView? <==> IsFailed(status)
    ensures v.VideoView? <==> !IsGenerating(status) && !IsFailed(status)
  {
    if IsGenerating(status) then GeneratingView
    else if IsFailed(status) then FailedView
    else VideoView
  }

  /** No status is both generating and failed, so the order of the two tests does not matter. */
  lemma GeneratingAndFailedDisjoint(status: Option<string>)
    ensures !(IsGenerating(status) && IsFailed(status))
    ensures (if IsFailed(status) then FailedView else if IsGenerating(status) then GeneratingView else VideoView)
      == SelectView(status)
  {
  }

  /** The screen for each of the four statuses of the generation service. */
  lemma ViewOfKnownStatus(s: VideoStatus)
    ensures SelectView(Some(StatusText(s))) == match s
      case Pending => GeneratingView
      case Generating => GeneratingView
      case Failed => FailedView
      case Completed => VideoView
  {
  }

  /** A missing status, or text that is none of the four, shows the video screen. */
  lemma UnknownStatusShowsVideo(status: Option<string>)
    requires status.None? || ParseStatus(status.value).None?
    ensures SelectView(status) == VideoView
  {
  }

  /** What the poller reports always selects the video screen. */
  lemma PolledStatusShowsVideo(dreamId: string)
    ensures SelectView(Some(StatusText(PollGenerationStatus(dreamId)))) == VideoView
  {
  }

  /** What each screen displays; `hasOnEdit` says whether an edit callback was passed. */
  datatype Screen =
    | GeneratingScreen(vision: string)
    | FailedScreen(errorPanel: Option<string>, tryAgain: bool)
    | VideoScreen(video: Option<string>, heading: string, editButton: bool)

  /** The component's render. */
  function Render(dream: Dream, hasOnEdit: bool): (sc: Screen)
    ensures sc.GeneratingScreen? <==> SelectView(dream.videoStatus).GeneratingView?
    ensures sc.FailedScreen? <==> SelectView(dream.videoStatus).FailedView?
    ensures sc.VideoScreen? <==> SelectView(dream.videoStatus).VideoView?
    ensures sc.GeneratingScreen? ==> sc.vision == dream.title
    ensures sc.FailedScreen? ==> (sc.errorPanel.Some? <==> Truthy(dream.errorMessage))
    ensures sc.FailedScreen? && sc.errorPanel.Some? ==> sc.errorPanel == dream.errorMessage
    ensures sc.VideoScreen? ==> (sc.video.Some? <==> Truthy(dream.videoUrl))
    ensures sc.VideoScreen? && sc.video.Some? ==> sc.video == dream.videoUrl
    ensures sc.VideoScreen? ==> sc.heading == dream.title
    ensures sc.FailedScreen? ==> sc.tryAgain == hasOnEdit
    ensures sc.VideoScreen? ==> sc.editButton == hasOnEdit
  {
    match SelectView(dream.videoStatus)
    case GeneratingView => GeneratingScreen(dream.title)
    case FailedView => FailedScreen(if Truthy(dream.errorMessage) then dream.errorMessage else None, hasOnEdit)
    case VideoView => VideoScreen(if Truthy(dream.videoUrl) then dream.videoUrl else None, dream.title, hasOnEdit)
  }

  /** The breathing cue. */
  datatype Phase = Inhale | Exhale

  /** One tick of the breathing timer. */
  function Toggle(p: Phase): (q: Phase)
    ensures q != p
  {
    if p == Inhale then Exhale else Inhale
  }

  /** Two ticks bring the cue back. */
  lemma ToggleTwiceIsIdentity(p: Phase)
    ensures Toggle(Toggle(p)) == p
  {
  }

  /** The cue after `n` ticks. */
  function AfterTicks(p: Phase, n: nat): Phase {
    if n == 0 then p else Toggle(AfterTicks(p, n - 1))
  }

  /** Starting from "inhale", the cue is "inhale" exactly after an even number of ticks. */
  lemma {:induction false} PhaseFollowsParity(n: nat)
    ensures AfterTicks(Inhale, n) == if n % 2 == 0 then Inhale else Exhale
  {
    if n > 0 {
      PhaseFollowsParity(n - 1);
    }
  }

  /** The text inside the breathing circle. */
  function PhaseLabel(p: Phase): (text: string)
    ensures (text == "Breathe In") <==> p == Inhale
    ensures (text == "Breathe Out") <==> p == Exhale
  {
    assert |"Breathe In"| != |"Breathe Out"|;
    match p
    case Inhale => "Breathe In"
    case Exhale => "Breathe Out"
  }
}
