/**
 * The dream submission form: choosing a photo, and the submit handler's
 * validation, loading flag and error message around its call to the dreams
 * service.
 */
module DreamUploadForm {
  import opened Wrappers
  import opened Text
  import opened Records
  import opened Tables
  import DreamsService

  /** The form's state hooks (the preview image is left out). */
  datatype FormState = FormState(title: string, photoFile: Option<File>, loading: bool, error: Option<string>)

  /** The form as first rendered: empty title, no photo, not loading, no error. */
  const InitialForm: FormState := FormState("", None, false, None)

  /** Shown when the title is empty after trimming. */
  const EmptyTitleMessage: string := "Please describe your dream"

  /** Shown when the service throws something that is not an `Error`. */
  const CreateFallbackMessage: string := "Failed to create dream"

  /** `handlePhotoChange`: the first chosen file replaces the photo; choosing nothing changes nothing. */
  function HandlePhotoChange(form: FormState, files: Option<seq<File>>): (r: FormState)
    ensures files.None? || |files.value| == 0 ==> r == form
    ensures files.Some? && |files.value| > 0 ==> r.photoFile == Some(files.value[0])
    ensures r.(photoFile := form.photoFile) == form
  {
    if files.Some? && |files.value| > 0 then form.(photoFile := Some(files.value[0])) else form
  }

  /** The arguments of the `createDream` call. */
  datatype CreateRequest = CreateRequest(title: string, photo: Option<File>)

  /**
   * One submit: the state afterwards, the service call made (if any), and
   * the dream handed to `onDreamCreated` (if any).
   */
  datatype Submission = Submission(form: FormState, request: Option<CreateRequest>, delivered: Option<Dream>)

  /** The state while the call is awaited: loading, error cleared. */
  function SubmitStarted(form: FormState): (r: FormState)
    ensures r.loading && r.error.None?
    ensures r.title == form.title && r.photoFile == form.photoFile
  {
    form.(loading := true, error := None)
  }

  /**
   * `handleSubmit`, with `reply` standing for how the `createDream` call
   * settles when it is made.
   */
  function HandleSubmit(form: FormState, reply: Result<Dream, Exception>): (r: Submission)
    ensures AllWhitespace(form.title) ==>
      r == Submission(form.(error := Some(EmptyTitleMessage)), None, None)
    ensures !AllWhitespace(form.title) ==>
      && r.request == Some(CreateRequest(form.title, form.photoFile))
      && !r.form.loading
      && r.form.title == form.title && r.form.photoFile == form.photoFile
    ensures !AllWhitespace(form.title) && reply.Success? ==>
      r.delivered == Some(reply.value) && r.form.error.None?
    ensures !AllWhitespace(form.title) && reply.Failure? ==>
      r.delivered.None? && r.form.error == Some(MessageOr(reply.error, CreateFallbackMessage))
  {
    BlankIffAllWhitespace(form.title);
    if Trim(form.title) == [] then
      Submission(form.(error := Some(EmptyTitleMessage)), None, None)
    else
      var started := SubmitStarted(form);
      var request := CreateRequest(form.title, form.photoFile);
      match reply
      case Success(dream) => Submission(started.(loading := false), Some(request), Some(dream))
      case Failure(e) => Submission(started.(loading := false, error := Some(MessageOr(e, CreateFallbackMessage))), Some(request), None)
  }

  /** A submit run against the dreams table: the submission and the table afterwards. */
  function SubmitToStore(form: FormState, table: seq<Dream>, env: DreamsService.Env): (seq<Dream>, Submission)
    requires !HasKey(table, DreamKey, env.stamp.id)
  {
    var created := DreamsService.CreateDream(table, form.title, form.photoFile, None, env);
    var s := HandleSubmit(form, created.result);
    if s.request.Some? then (created.table, s) else (table, s)
  }

  /** A blank title is refused before the store is touched. */
  lemma BlankTitleNeverReachesStore(form: FormState, table: seq<Dream>, env: DreamsService.Env)
    requires !HasKey(table, DreamKey, env.stamp.id)
    requires Trim(form.title) == []
    ensures SubmitToStore(form, table, env).0 == table
    ensures SubmitToStore(form, table, env).1.form.error == Some(EmptyTitleMessage)
    ensures SubmitToStore(form, table, env).1.request.None?
  {
    BlankIffAllWhitespace(form.title);
  }

  /** Submitting the untouched form only shows the validation message. */
  lemma UntouchedFormIsRejected(table: seq<Dream>, env: DreamsService.Env)
    requires !HasKey(table, DreamKey, env.stamp.id)
    ensures SubmitToStore(InitialForm, table, env)
      == (table, Submission(InitialForm.(error := Some(EmptyTitleMessage)), None, None))
  {
  }

  /**
   * A submit with a non-blank title whose upload and insert succeed stores
   * one new dream carrying the untrimmed title, a photo URL exactly when a
   * photo was chosen and no video, and hands that dream to the caller.
   */
  lemma SubmittedDreamIsStored(form: FormState, table: seq<Dream>, env: DreamsService.Env)
    requires !HasKey(table, DreamKey, env.stamp.id)
    requires Trim(form.title) != []
    requires DreamsService.UploadOk(env, DreamsService.PhotoBucket, env.photoClock, form.photoFile)
    requires env.fault.None?
    ensures var (after, s) := SubmitToStore(form, table, env);
      && s.delivered.Some?
      && var d := s.delivered.value;
      && after == table + [d]
      && d.title == form.title
      && (d.photoUrl.Some? <==> form.photoFile.Some?)
      && d.videoUrl.None?
      && s.form.error.None? && !s.form.loading
  {
    BlankIffAllWhitespace(form.title);
  }

  /** A failed upload or insert leaves the table as it was and shows an error. */
  lemma FailedSubmitLeavesStore(form: FormState, table: seq<Dream>, env: DreamsService.Env)
    requires !HasKey(table, DreamKey, env.stamp.id)
    requires SubmitToStore(form, table, env).1.delivered.None?
    ensures SubmitToStore(form, table, env).0 == table
    ensures SubmitToStore(form, table, env).1.form.error.Some?
  {
  }
}
