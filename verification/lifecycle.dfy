/** The pieces put together: the widget hands a file to the hook, the hook
    validates it and starts the request, and the request's callbacks are fed
    back to the hook in the order the client delivers them. */
module Lifecycle {
  import opened Wrappers
  import opened Json
  import opened Types
  import opened FileValidator
  import opened Api
  import opened AudioDetection
  import opened AudioUploader

  function ProgressEvents(ps: seq<int>): (es: seq<Event>)
    ensures |es| == |ps|
    ensures forall i :: 0 <= i < |ps| ==> es[i] == Progress(ps[i])
  {
    seq(|ps|, i requires 0 <= i < |ps| => Progress(ps[i]))
  }

  /** How the hook's await sees the settlement: a resolution is the result,
      a rejection is the Error the client threw. */
  function SettlementEvent(st: Settlement): Event {
    match st
    case Resolved(r) => Succeeded(r)
    case Rejected(m) => Failed(ErrorObject(m))
  }

  /** Callbacks delivered before the hook's await resumes. */
  function BeforeSettling(run: DetectRun): seq<Event> {
    ProgressEvents(run.progress) + [SettlementEvent(run.settlement)]
  }

  /** The whole run as the hook receives it, the timer's callbacks last. */
  function HookEvents(run: DetectRun): seq<Event> {
    BeforeSettling(run) + ProgressEvents(run.delayed)
  }

  /** Whatever came before, the settlement alone decides the state. */
  lemma {:induction false} SettlementDecides(s: Session, pre: seq<Event>, st: Settlement)
    ensures Run(s, pre + [SettlementEvent(st)]) == Step(Run(s, pre), SettlementEvent(st))
    ensures st.Resolved? ==>
      Run(s, pre + [SettlementEvent(st)]) == Session(UploadState(false, 100, None, Some(st.result)), Completed)
    ensures st.Rejected? ==>
      Run(s, pre + [SettlementEvent(st)]) == Session(UploadState(false, 0, Some(st.message), None), Error)
  {
    RunAppend(s, pre, [SettlementEvent(st)]);
    assert [SettlementEvent(st)][1..] == [];
  }

  /** A valid file whose request is answered with a non-null body is
      completed with the merged result when the await resumes; 500 ms later
      the timer's 100 moves the status to processing, result still shown. */
  lemma SuccessfulDetection(s: Session, f: AudioFile, uploads: seq<ProgressEvent>, data: Value)
    requires ValidateAudioFile(f).isValid && !data.JNull?
    ensures var run := Detect(f, true, uploads, Replied(data));
      var r := MergeResult(data, f).value;
      && Run(s, [SelectFile(f)] + BeforeSettling(run))
         == Session(UploadState(false, 100, None, Some(r)), Completed)
      && Run(s, [SelectFile(f)] + HookEvents(run))
         == Session(UploadState(false, 100, None, Some(r)), Processing)
  {
    var run := Detect(f, true, uploads, Replied(data));
    var pre := [SelectFile(f)] + ProgressEvents(run.progress);
    assert [SelectFile(f)] + BeforeSettling(run) == pre + [SettlementEvent(run.settlement)];
    SettlementDecides(s, pre, run.settlement);
    var all := [SelectFile(f)] + HookEvents(run);
    assert all == ([SelectFile(f)] + BeforeSettling(run)) + [Progress(100)];
    RunAppend(s, [SelectFile(f)] + BeforeSettling(run), [Progress(100)]);
    assert [Progress(100)][1..] == [];
  }

  /** A failed request leaves the error state with the client's message, so
      the hook's "unexpected error" fallback is never shown for it. */
  lemma FailedDetection(s: Session, f: AudioFile, uploads: seq<ProgressEvent>, e: RequestError)
    requires ValidateAudioFile(f).isValid
    ensures var run := Detect(f, true, uploads, RequestFailed(e));
      Run(s, [SelectFile(f)] + HookEvents(run))
        == Session(UploadState(false, 0, Some(ErrorMessage(e)), None), Error)
  {
    var run := Detect(f, true, uploads, RequestFailed(e));
    var pre := [SelectFile(f)] + ProgressEvents(run.progress);
    assert [SelectFile(f)] + HookEvents(run) == pre + [SettlementEvent(run.settlement)];
    SettlementDecides(s, pre, run.settlement);
  }

  /** A null body: 75 is reported, the request fails with the network
      message, and the timer's 100 then turns the error state into a
      spinner that says the model is analysing while the error is shown. */
  lemma NullBodyEndsProcessingWithError(s: Session, f: AudioFile, uploads: seq<ProgressEvent>)
    requires ValidateAudioFile(f).isValid
    ensures var t := Run(s, [SelectFile(f)] + HookEvents(Detect(f, true, uploads, Replied(JNull))));
      && t == Session(UploadState(false, 100, Some(NetworkErrorMessage), None), Processing)
      && IsLoading(t.status)
      && StatusMessage(t.status, t.upload.progress) == AnalyzingMessage
  {
    var run := Detect(f, true, uploads, Replied(JNull));
    var pre := [SelectFile(f)] + ProgressEvents(run.progress);
    SettlementDecides(s, pre, run.settlement);
    assert [SelectFile(f)] + HookEvents(run) == (pre + [SettlementEvent(run.settlement)]) + [Progress(100)];
    RunAppend(s, pre + [SettlementEvent(run.settlement)], [Progress(100)]);
    assert [Progress(100)][1..] == [];
  }

  /** The late 100 is not guarded: reset within the 500 ms after a success
      and the timer's callback still lands. The result is gone, so the page
      shows the uploader again, stuck on a loading spinner that says the
      model is analysing, with no request in flight. */
  lemma LateProgressAfterResetShowsSpinner(s: Session, f: AudioFile, uploads: seq<ProgressEvent>, data: Value)
    requires ValidateAudioFile(f).isValid && !data.JNull?
    ensures var run := Detect(f, true, uploads, Replied(data));
      var t := Run(s, [SelectFile(f)] + BeforeSettling(run) + [Reset] + ProgressEvents(run.delayed));
      && t == Session(UploadState(false, 100, None, None), Processing)
      && t.upload.result.None?
      && IsLoading(t.status)
      && StatusMessage(t.status, t.upload.progress) == AnalyzingMessage
      && !BusyMeansInFlight(t)
  {
    var run := Detect(f, true, uploads, Replied(data));
    var pre := [SelectFile(f)] + BeforeSettling(run);
    assert ProgressEvents(run.delayed) == [Progress(100)];
    assert pre + [Reset] + ProgressEvents(run.delayed) == pre + ([Reset] + [Progress(100)]);
    RunAppend(s, pre, [Reset] + [Progress(100)]);
    assert ([Reset] + [Progress(100)])[1..] == [Progress(100)];
    assert [Progress(100)][1..] == [];
  }

  /** From the initial state a valid file and the progress values
      10, 40, 60, 75, 100 give the statuses uploading, uploading, processing,
      processing, processing: only the settlement completes. */
  lemma ProgressTraceStatuses(f: AudioFile)
    requires ValidateAudioFile(f).isValid
    ensures var s0 := Step(Initial, SelectFile(f));
      var s1 := Step(s0, Progress(10));
      var s2 := Step(s1, Progress(40));
      var s3 := Step(s2, Progress(60));
      var s4 := Step(s3, Progress(75));
      var s5 := Step(s4, Progress(100));
      && s1.status == Uploading && s2.status == Uploading
      && s3.status == Processing && s4.status == Processing && s5.status == Processing
      && s5.upload == UploadState(true, 100, None, None)
  {
  }

  /** Since uploading always comes with progress below 50, the widget's
      "Processing audio..." line can never be shown. */
  lemma ProcessingAudioNeverShown(es: seq<Event>)
    ensures var t := Run(Initial, es);
      StatusMessage(t.status, t.upload.progress) != ProcessingAudioMessage
  {
    RunKeepsUploadingBelowHalf(Initial, es);
    StatusMessageCases(Run(Initial, es).status, Run(Initial, es).upload.progress);
  }

  /** Dropping files whose first one is valid starts an upload with that
      file; dropping none leaves the hook untouched. */
  lemma DropStartsUpload(s: Session, files: Option<seq<AudioFile>>)
    ensures var (active, forwarded) := HandleDrop(files);
      && !active
      && (forwarded.None? <==> files.None? || files.value == [])
      && (forwarded.Some? && ValidateAudioFile(files.value[0]).isValid ==>
            Step(s, SelectFile(forwarded.value)).status == Uploading)
  {
  }
}
