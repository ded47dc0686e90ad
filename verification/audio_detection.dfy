/** The detection hook as a pure transition function over the upload state and
    the analysis status. The events are the user's file selection and reset,
    and the callbacks of the in-flight request: progress, success, failure.
    As in the code, callbacks are applied whatever the current status. */
module AudioDetection {
  import opened Wrappers
  import opened Types
  import opened FileValidator

  datatype Session = Session(upload: UploadState, status: AnalysisStatus)

  const Cleared: UploadState := UploadState(false, 0, None, None)
  const Initial: Session := Session(Cleared, Idle)

  /** What a rejected promise carried: an Error with its message, or some
      other thrown value. */
  datatype Thrown = ErrorObject(message: string) | NonError

  datatype Event =
    | SelectFile(file: AudioFile)
    | Progress(value: int)
    | Succeeded(result: DetectionResult)
    | Failed(thrown: Thrown)
    | Reset

  const InvalidFileMessage: string := "Invalid file"
  const UnexpectedErrorMessage: string := "An unexpected error occurred"

  /** `validation.error || 'Invalid file'`. */
  function RejectionMessage(v: FileValidationResult): (msg: string)
    ensures msg != ""
  {
    if v.error.Some? && v.error.value != "" then v.error.value else InvalidFileMessage
  }

  /** `error instanceof Error ? error.message : 'An unexpected error occurred'`. */
  function FailureMessage(t: Thrown): string {
    match t
    case ErrorObject(m) => m
    case NonError => UnexpectedErrorMessage
  }

  function Step(s: Session, e: Event): Session {
    match e
    case SelectFile(f) =>
      var v := ValidateAudioFile(f);
      if !v.isValid then Session(s.upload.(error := Some(RejectionMessage(v))), Error)
      else Session(UploadState(true, 0, None, None), Uploading)
    case Progress(n) =>
      Session(s.upload.(progress := n), if n >= 50 then Processing else s.status)
    case Succeeded(r) => Session(UploadState(false, 100, None, Some(r)), Completed)
    case Failed(t) => Session(UploadState(false, 0, Some(FailureMessage(t)), None), Error)
    case Reset => Initial
  }

  function Run(s: Session, es: seq<Event>): Session
    decreases |es|
  {
    if es == [] then s else Run(Step(s, es[0]), es[1..])
  }

  lemma {:induction false} RunAppend(s: Session, a: seq<Event>, b: seq<Event>)
    ensures Run(s, a + b) == Run(Run(s, a), b)
    decreases |a|
  {
    if a == [] {
      assert a + b == b;
    } else {
      assert (a + b)[1..] == a[1..] + b;
      RunAppend(Step(s, a[0]), a[1..], b);
    }
  }

  // One lemma per transition of the hook.

  /** An invalid file sets the status to error with the validator's message
      and leaves progress, result and the uploading flag as they were. */
  lemma SelectInvalidFile(s: Session, f: AudioFile)
    requires !ValidateAudioFile(f).isValid
    ensures var t := Step(s, SelectFile(f));
      && t.status == Error
      && t.upload.error == ValidateAudioFile(f).error
      && t.upload.progress == s.upload.progress
      && t.upload.result == s.upload.result
      && t.upload.uploading == s.upload.uploading
  {
  }

  /** A valid file starts a fresh upload, discarding any earlier result or
      error. */
  lemma SelectValidFile(s: Session, f: AudioFile)
    requires ValidateAudioFile(f).isValid
    ensures Step(s, SelectFile(f)) == Session(UploadState(true, 0, None, None), Uploading)
  {
  }

  /** A progress value is stored; 50 or more means processing, less leaves
      the status alone. Nothing else changes, in any status. */
  lemma ProgressStoresValue(s: Session, n: int)
    ensures var t := Step(s, Progress(n));
      && t.upload == s.upload.(progress := n)
      && (n >= 50 ==> t.status == Processing)
      && (n < 50 ==> t.status == s.status)
  {
  }

  /** Success: progress 100, the result stored, the error cleared. */
  lemma SucceededCompletes(s: Session, r: DetectionResult)
    ensures Step(s, Succeeded(r)) == Session(UploadState(false, 100, None, Some(r)), Completed)
  {
  }

  /** Failure: progress back to 0, no result, the Error's message (or the
      fallback for other thrown values) as the error. */
  lemma FailedReportsMessage(s: Session, t: Thrown)
    ensures var u := Step(s, Failed(t));
      && u.status == Error && u.upload.progress == 0 && !u.upload.uploading && u.upload.result == None
      && u.upload.error == Some(if t.ErrorObject? then t.message else UnexpectedErrorMessage)
  {
  }

  /** Reset clears everything from any state, and resetting twice is
      resetting once. */
  lemma ResetClears(s: Session)
    ensures Step(s, Reset) == Session(UploadState(false, 0, None, None), Idle)
    ensures Step(Step(s, Reset), Reset) == Step(s, Reset)
  {
  }

  // The invariant the hook keeps.

  /** What each status says about the rest of the state, in every state the
      hook can reach. Processing says nothing: a late callback can enter it
      from anywhere. */
  predicate Consistent(s: Session) {
    && (s.status == Idle ==> !s.upload.uploading && s.upload.error == None && s.upload.result == None)
    && (s.status == Uploading ==>
          s.upload.uploading && s.upload.progress < 50 && s.upload.error == None && s.upload.result == None)
    && (s.status == Completed ==> !s.upload.uploading && s.upload.error == None && s.upload.result.Some?)
    && (s.status == Error ==> s.upload.error.Some? && s.upload.error.value != "")
  }

  lemma StepPreservesConsistent(s: Session, e: Event)
    requires Consistent(s)
    requires e.Failed? && e.thrown.ErrorObject? ==> e.thrown.message != ""
    ensures Consistent(Step(s, e))
  {
    if e.SelectFile? && !ValidateAudioFile(e.file).isValid {
      assert RejectionMessage(ValidateAudioFile(e.file)) != "";
    }
  }

  predicate MessagesNonEmpty(es: seq<Event>) {
    forall i :: 0 <= i < |es| && es[i].Failed? && es[i].thrown.ErrorObject? ==> es[i].thrown.message != ""
  }

  /** Every state reached from a consistent one is consistent. */
  lemma {:induction false} RunPreservesConsistent(s: Session, es: seq<Event>)
    requires Consistent(s) && MessagesNonEmpty(es)
    ensures Consistent(Run(s, es))
    decreases |es|
  {
    if es != [] {
      StepPreservesConsistent(s, es[0]);
      assert MessagesNonEmpty(es[1..]) by {
        forall i | 0 <= i < |es[1..]| ensures es[1..][i] == es[i + 1] { }
      }
      RunPreservesConsistent(Step(s, es[0]), es[1..]);
    }
  }

  lemma InitialConsistent()
    ensures Consistent(Initial)
  {
  }

  /** The part of the invariant the widget relies on: an uploading session
      has progress below 50. */
  predicate UploadingBelowHalf(s: Session) {
    s.status == Uploading ==> s.upload.progress < 50
  }

  /** Every event sequence keeps uploading below 50, whatever the failure
      messages: a valid selection restarts at 0, and progress of 50 or more
      leaves the uploading status. */
  lemma {:induction false} RunKeepsUploadingBelowHalf(s: Session, es: seq<Event>)
    requires UploadingBelowHalf(s)
    ensures UploadingBelowHalf(Run(s, es))
    decreases |es|
  {
    if es != [] {
      assert UploadingBelowHalf(Step(s, es[0]));
      RunKeepsUploadingBelowHalf(Step(s, es[0]), es[1..]);
    }
  }

  /** The invariant a stale-callback guard would keep: the busy statuses
      describe an upload in flight with no result yet. */
  predicate BusyMeansInFlight(s: Session) {
    IsLoading(s.status) ==> s.upload.uploading && s.upload.result == None
  }

  /** The hook does not keep it: a progress callback arriving after success
      moves a completed session to processing. */
  lemma LateProgressBreaksBusyInvariant(r: DetectionResult)
    ensures var s := Session(UploadState(false, 100, None, Some(r)), Completed);
      && Consistent(s) && BusyMeansInFlight(s)
      && Step(s, Progress(100)).status == Processing
      && !BusyMeansInFlight(Step(s, Progress(100)))
  {
  }
}
