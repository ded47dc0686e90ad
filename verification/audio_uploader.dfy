/** The upload widget's logic: the status line, the loading flag, the drag
    highlight and which file a drop or a file input hands on. */
module AudioUploader {
  import opened Wrappers
  import opened Types

  const UploadingMessage: string := "Uploading file..."
  const ProcessingAudioMessage: string := "Processing audio..."
  const AnalyzingMessage: string := "Analyzing with AI model..."
  const IdleMessage: string := "Drop your audio file here"

  function StatusMessage(status: AnalysisStatus, progress: int): string {
    match status
    case Uploading => if progress < 50 then UploadingMessage else ProcessingAudioMessage
    case Processing => AnalyzingMessage
    case _ => IdleMessage
  }

  /** Which message shows when: the uploading message exactly while uploading
      below 50, the analysing one exactly while processing, and the drop
      prompt exactly when nothing is loading. */
  lemma StatusMessageCases(status: AnalysisStatus, progress: int)
    ensures StatusMessage(status, progress) == UploadingMessage <==> status == Uploading && progress < 50
    ensures StatusMessage(status, progress) == ProcessingAudioMessage <==> status == Uploading && progress >= 50
    ensures StatusMessage(status, progress) == AnalyzingMessage <==> status == Processing
    ensures StatusMessage(status, progress) == IdleMessage <==> !IsLoading(status)
  {
  }

  /** handleDrag: enter and over raise the highlight, leave lowers it, any
      other event type leaves it. */
  function HandleDrag(active: bool, eventType: string): (r: bool)
    ensures eventType == "dragenter" || eventType == "dragover" ==> r
    ensures eventType == "dragleave" ==> !r
    ensures eventType != "dragenter" && eventType != "dragover" && eventType != "dragleave" ==> r == active
  {
    if eventType == "dragenter" || eventType == "dragover" then true
    else if eventType == "dragleave" then false
    else active
  }

  /** `files && files[0]`: the first file of a list that may be absent or
      empty. */
  function FirstFile(files: Option<seq<AudioFile>>): (r: Option<AudioFile>)
    ensures r.Some? <==> files.Some? && |files.value| > 0
    ensures r.Some? ==> r.value == files.value[0]
  {
    if files.Some? && |files.value| > 0 then Some(files.value[0]) else None
  }

  /** Only the head of the list matters: files after a non-empty prefix are
      never forwarded, and an empty prefix hands the choice to what follows. */
  lemma FirstFileIgnoresLaterFiles(a: seq<AudioFile>, b: seq<AudioFile>)
    ensures FirstFile(Some(a + b)) == if |a| > 0 then FirstFile(Some(a)) else FirstFile(Some(b))
  {
    if |a| > 0 {
      assert (a + b)[0] == a[0];
    } else {
      assert a + b == b;
    }
  }

  /** Drop and file input forward the same file for the same list. */
  lemma DropAndInputAgree(files: Option<seq<AudioFile>>)
    ensures HandleDrop(files).1 == HandleFileInput(files)
    ensures HandleDrop(files).1.Some? ==> HandleDrop(files).1.value in files.value
  {
  }

  /** handleDrop: the highlight goes off and at most the first file is passed
      on to onFileSelect. */
  function HandleDrop(files: Option<seq<AudioFile>>): (r: (bool, Option<AudioFile>))
    ensures !r.0
    ensures r.1 == FirstFile(files)
  {
    (false, FirstFile(files))
  }

  /** handleFileInput: the same first-file rule, with no highlight change. */
  function HandleFileInput(files: Option<seq<AudioFile>>): (r: Option<AudioFile>)
    ensures r == FirstFile(files)
  {
    FirstFile(files)
  }

  /** The drop zone's input: a drag event by type, or a drop. */
  datatype DragInput = Drag(eventType: string) | Drop(files: Option<seq<AudioFile>>)

  function DragStep(active: bool, input: DragInput): bool {
    match input
    case Drag(t) => HandleDrag(active, t)
    case Drop(files) => HandleDrop(files).0
  }

  /** The highlight after a sequence of inputs, applied in order. */
  function DragActiveAfter(active: bool, inputs: seq<DragInput>): bool
    decreases |inputs|
  {
    if inputs == [] then active else DragActiveAfter(DragStep(active, inputs[0]), inputs[1..])
  }

  /** The verdict of the last input that decides the highlight, scanning from
      the end; None when every input leaves it alone. */
  function LastDecisive(inputs: seq<DragInput>): Option<bool>
    decreases |inputs|
  {
    if inputs == [] then None
    else
      var last := inputs[|inputs| - 1];
      match last
      case Drop(_) => Some(false)
      case Drag(t) =>
        if t == "dragenter" || t == "dragover" then Some(true)
        else if t == "dragleave" then Some(false)
        else LastDecisive(inputs[..|inputs| - 1])
  }

  /** The highlight is on exactly when the last deciding input was an enter
      or an over; with none, it keeps its starting value. */
  lemma {:induction false} DragActiveIsLastDecisive(active: bool, inputs: seq<DragInput>)
    ensures DragActiveAfter(active, inputs) == LastDecisive(inputs).GetOr(active)
    decreases |inputs|
  {
    if inputs != [] {
      var init := inputs[..|inputs| - 1];
      var last := inputs[|inputs| - 1];
      assert inputs == init + [last];
      DragActiveAfterAppend(active, init, last);
      DragActiveIsLastDecisive(active, init);
    }
  }

  lemma {:induction false} DragActiveAfterAppend(active: bool, init: seq<DragInput>, last: DragInput)
    ensures DragActiveAfter(active, init + [last]) == DragStep(DragActiveAfter(active, init), last)
    decreases |init|
  {
    if init == [] {
      assert init + [last] == [last];
    } else {
      assert (init + [last])[1..] == init[1..] + [last];
      DragActiveAfterAppend(DragStep(active, init[0]), init[1..], last);
    }
  }
}
