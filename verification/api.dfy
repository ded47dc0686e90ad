/** The HTTP client's pure parts: where it sends requests, how transport
    progress becomes a percentage, the synthetic processing tail, how the
    server's payload becomes the client's result, how failures become one
    message, and how the health probe becomes a flag. The transport itself is
    an input: its progress events and its reply or error. */
module Api {
  import opened Wrappers
  import opened Numbers
  import opened Text
  import opened Json
  import opened Types

  // Configuration and the shared instance

  const DefaultBaseUrl: string := "http://localhost:8000"

  /** `VITE_API_URL || 'http://localhost:8000'`: an unset or empty override
      falls back to the default. */
  function BaseUrl(env: Option<string>): (url: string)
    ensures env.Some? && env.value != "" ==> url == env.value
    ensures env.None? || env.value == "" ==> url == DefaultBaseUrl
    ensures url != ""
  {
    if env.Some? && env.value != "" then env.value else DefaultBaseUrl
  }

  /** The fallback is a fixed point: configuring the URL the client already
      uses changes nothing, and only an empty override is ever replaced. */
  lemma BaseUrlSettles(env: Option<string>)
    ensures BaseUrl(Some(BaseUrl(env))) == BaseUrl(env)
    ensures BaseUrl(env) != DefaultBaseUrl ==> env == Some(BaseUrl(env))
  {
  }

  datatype ApiService = ApiService(baseURL: string)

  /** getInstance over the static slot: the first call creates the service
      with the configured base URL; every call returns the stored one. The
      result pairs the instance with the slot's new content. */
  function GetInstance(slot: Option<ApiService>, env: Option<string>): (r: (ApiService, Option<ApiService>))
    ensures r.1 == Some(r.0)
    ensures slot.Some? ==> r.0 == slot.value
    ensures slot.None? ==> r.0.baseURL == BaseUrl(env)
  {
    match slot
    case Some(s) => (s, slot)
    case None => var s := ApiService(BaseUrl(env)); (s, Some(s))
  }

  /** Every later call returns the instance the first call created. */
  lemma GetInstanceIsStable(slot: Option<ApiService>, env: Option<string>, env': Option<string>)
    ensures var (first, slot') := GetInstance(slot, env);
      GetInstance(slot', env') == (first, slot')
  {
  }

  // Upload progress

  /** An axios upload progress event; `total` is undefined when the length is
      unknown. */
  datatype ProgressEvent = ProgressEvent(loaded: nat, total: Option<nat>)

  /** `Math.round(loaded / total * 50)`: the upload is the first half of the
      bar. */
  function UploadPercent(loaded: nat, total: nat): (p: nat)
    requires total > 0
    ensures 2 * total * p <= 100 * loaded + total < 2 * total * (p + 1)
  {
    RoundHalfUp(50 * loaded, total)
  }

  /** A partial upload reports between 0 and 50, reaching 0 and 50 at the ends. */
  lemma UploadPercentBounds(loaded: nat, total: nat)
    requires 0 < total && loaded <= total
    ensures 0 <= UploadPercent(loaded, total) <= 50
    ensures UploadPercent(0, total) == 0
    ensures UploadPercent(total, total) == 50
  {
    RoundHalfUpMonotone(50 * loaded, 50 * total, total);
    RoundHalfUpUnique(0, total, 0);
    RoundHalfUpUnique(50 * total, total, 50);
  }

  /** More bytes sent never lowers the percentage. */
  lemma UploadPercentMonotone(a: nat, b: nat, total: nat)
    requires 0 < total && a <= b
    ensures UploadPercent(a, total) <= UploadPercent(b, total)
  {
    RoundHalfUpMonotone(50 * a, 50 * b, total);
  }

  /** onUploadProgress: a value is reported only when the total is known and
      nonzero and a callback was given. */
  function UploadReport(e: ProgressEvent, hasCallback: bool): (r: Option<int>)
    ensures r.Some? <==> hasCallback && e.total.Some? && e.total.value != 0
    ensures r.Some? ==> r.value == UploadPercent(e.loaded, e.total.value)
  {
    if hasCallback && e.total.Some? && e.total.value != 0 then
      Some(UploadPercent(e.loaded, e.total.value))
    else None
  }

  /** The values reported for a run of upload events, in order. */
  function UploadReports(events: seq<ProgressEvent>, hasCallback: bool): (ps: seq<int>)
    ensures |ps| <= |events|
    ensures !hasCallback ==> ps == []
    ensures forall i :: 0 <= i < |ps| ==>
      exists j :: 0 <= j < |events| && UploadReport(events[j], hasCallback) == Some(ps[i])
    ensures (forall j :: 0 <= j < |events| ==> UploadReport(events[j], hasCallback).Some?) ==>
      |ps| == |events| && forall i :: 0 <= i < |ps| ==> Some(ps[i]) == UploadReport(events[i], hasCallback)
  {
    if events == [] then []
    else
      var rest := UploadReports(events[1..], hasCallback);
      match UploadReport(events[0], hasCallback)
      case Some(p) => [p] + rest
      case None => rest
  }

  /** A single event contributes its own report, or nothing. */
  lemma UploadReportsSingle(e: ProgressEvent, hasCallback: bool)
    ensures UploadReports([e], hasCallback)
      == if UploadReport(e, hasCallback).Some? then [UploadReport(e, hasCallback).value] else []
  {
    assert [e][1..] == [];
  }

  /** Reports of consecutive runs of events are the reports of each run, in
      order: an event without a total is skipped and the others still
      report, each at its own position. */
  lemma {:induction false} UploadReportsAppend(a: seq<ProgressEvent>, b: seq<ProgressEvent>, hasCallback: bool)
    ensures UploadReports(a + b, hasCallback) == UploadReports(a, hasCallback) + UploadReports(b, hasCallback)
    decreases |a|
  {
    if a == [] {
      assert a + b == b;
    } else {
      assert (a + b)[0] == a[0];
      assert (a + b)[1..] == a[1..] + b;
      UploadReportsAppend(a[1..], b, hasCallback);
    }
  }

  /** Worked value: an event without a total is skipped and the events
      around it still report, in order. */
  lemma UploadReportsSkipUnknownTotal()
    ensures UploadReports([ProgressEvent(10, Some(100)), ProgressEvent(5, None), ProgressEvent(100, Some(100))], true)
      == [5, 50]
  {
    var e0, e1, e2 := ProgressEvent(10, Some(100)), ProgressEvent(5, None), ProgressEvent(100, Some(100));
    RoundHalfUpUnique(500, 100, 5);
    RoundHalfUpUnique(5000, 100, 50);
    assert UploadReport(e0, true) == Some(5);
    assert UploadReport(e1, true) == None;
    assert UploadReport(e2, true) == Some(50);
    UploadReportsSingle(e0, true);
    UploadReportsSingle(e1, true);
    UploadReportsSingle(e2, true);
    UploadReportsAppend([e1], [e2], true);
    assert UploadReports([e1] + [e2], true) == [50];
    UploadReportsAppend([e0], [e1] + [e2], true);
    assert [e0, e1, e2] == [e0] + ([e1] + [e2]);
  }

  /** Events of one upload: one known nonzero total, bytes sent never
      decreasing and never above the total. */
  predicate WellOrderedUpload(events: seq<ProgressEvent>, total: nat) {
    && total > 0
    && (forall i :: 0 <= i < |events| ==> events[i].total == Some(total) && events[i].loaded <= total)
    && (forall i, j :: 0 <= i < j < |events| ==> events[i].loaded <= events[j].loaded)
  }

  predicate NonDecreasing(ps: seq<int>) {
    forall i, j :: 0 <= i < j < |ps| ==> ps[i] <= ps[j]
  }

  /** A well-ordered upload is reported as non-decreasing values in [0, 50],
      led by the first event's percentage. */
  lemma UploadReportsOrdered(events: seq<ProgressEvent>, total: nat)
    requires WellOrderedUpload(events, total)
    ensures var ps := UploadReports(events, true);
      && |ps| == |events|
      && (forall i :: 0 <= i < |ps| ==> ps[i] == UploadPercent(events[i].loaded, total))
      && (forall i :: 0 <= i < |ps| ==> 0 <= ps[i] <= 50)
      && NonDecreasing(ps)
  {
    var ps := UploadReports(events, true);
    assert forall j :: 0 <= j < |events| ==> UploadReport(events[j], true).Some?;
    forall i | 0 <= i < |ps|
      ensures 0 <= ps[i] <= 50
    {
      UploadPercentBounds(events[i].loaded, total);
    }
    forall i, j | 0 <= i < j < |ps|
      ensures ps[i] <= ps[j]
    {
      UploadPercentMonotone(events[i].loaded, events[j].loaded, total);
    }
  }

  // The result

  function LocalFileInfo(file: AudioFile): Object {
    map["name" := JStr(file.name), "size" := JNum(file.size as real)]
  }

  /** `{...data, file_info: {name, size, ...data.file_info}}`; None when `data`
      is null, where reading `data.file_info` throws. */
  function MergeResult(data: Value, file: AudioFile): (r: Option<DetectionResult>)
    ensures r.None? <==> data.JNull?
  {
    if data.JNull? then None
    else
      var fileInfo := LocalFileInfo(file) + Spread(Get(data, "file_info"));
      Some(Spread(Some(data))["file_info" := JObj(fileInfo)])
  }

  /** Every server field but file_info is copied unchanged, and file_info is
      always present. */
  lemma MergeCopiesServerFields(data: Value, file: AudioFile)
    requires !data.JNull?
    ensures var r := MergeResult(data, file).value;
      && r.Keys == Spread(Some(data)).Keys + {"file_info"}
      && (forall k :: k in r && k != "file_info" ==> r[k] == Spread(Some(data))[k])
  {
  }

  /** Server file_info keys, name and size included, override the local ones;
      local name and size survive only where the server is silent. */
  lemma ServerFileInfoOverrides(m: Object, file: AudioFile, info: Object)
    requires "file_info" in m && m["file_info"] == JObj(info)
    ensures var r := MergeResult(JObj(m), file).value;
      && r["file_info"].JObj?
      && r["file_info"].fields.Keys == info.Keys + {"name", "size"}
      && (forall k :: k in info ==> r["file_info"].fields[k] == info[k])
      && ("name" !in info ==> r["file_info"].fields["name"] == JStr(file.name))
      && ("size" !in info ==> r["file_info"].fields["size"] == JNum(file.size as real))
  {
  }

  /** With no server file_info (absent, null, boolean or number) the result's
      file_info is exactly the local name and size. */
  lemma NoServerFileInfoKeepsLocal(data: Value, file: AudioFile)
    requires !data.JNull?
    requires match Get(data, "file_info")
      case None => true
      case Some(v) => v.JNull? || v.JBool? || v.JNum?
    ensures MergeResult(data, file).value["file_info"] == JObj(LocalFileInfo(file))
  {
  }

  /** A non-object file_info only adds numeric keys, so it cannot displace the
      local name and size. */
  lemma NonObjectFileInfoKeepsName(data: Value, file: AudioFile)
    requires !data.JNull?
    requires Get(data, "file_info").Some? && !Get(data, "file_info").value.JObj?
    ensures var info := MergeResult(data, file).value["file_info"].fields;
      info["name"] == JStr(file.name) && info["size"] == JNum(file.size as real)
  {
    var extra := Spread(Get(data, "file_info"));
    assert !AllDigits("name") by { assert !IsDigit("name"[0]); }
    assert !AllDigits("size") by { assert !IsDigit("size"[0]); }
    assert "name" !in extra && "size" !in extra;
  }

  // Failures

  /** What the catch block sees: an axios error (with its code, the server's
      `detail` if a response carried one, and its message) or anything else. */
  datatype RequestError =
    | AxiosError(code: Option<string>, detail: Option<string>, message: string)
    | NonAxiosError

  const TimeoutMessage: string := "Request timeout. The file might be too large or the server is busy."
  const GenericFailureMessage: string := "Failed to analyze audio file"
  const NetworkErrorMessage: string := "Network error occurred. Please check your connection."

  predicate Truthy(s: Option<string>) {
    s.Some? && s.value != ""
  }

  /** The message of the Error the client rethrows. */
  function ErrorMessage(e: RequestError): (msg: string)
    ensures msg != ""
  {
    match e
    case NonAxiosError => NetworkErrorMessage
    case AxiosError(code, detail, message) =>
      if code == Some("ECONNABORTED") then TimeoutMessage
      else if Truthy(detail) then detail.value
      else if message != "" then message
      else GenericFailureMessage
  }

  /** A timeout wins over whatever detail or message the error carries. */
  lemma TimeoutIgnoresDetail(detail: Option<string>, message: string)
    ensures ErrorMessage(AxiosError(Some("ECONNABORTED"), detail, message)) == TimeoutMessage
  {
  }

  /** Any other axios error reports the first non-empty of the server's
      detail, the error's message, and the generic text. */
  lemma AxiosErrorFirstNonEmpty(code: Option<string>, detail: Option<string>, message: string)
    requires code != Some("ECONNABORTED")
    ensures var msg := ErrorMessage(AxiosError(code, detail, message));
      && (Truthy(detail) ==> msg == detail.value)
      && (!Truthy(detail) && message != "" ==> msg == message)
      && (!Truthy(detail) && message == "" ==> msg == GenericFailureMessage)
  {
  }

  lemma NonAxiosIsNetworkError()
    ensures ErrorMessage(NonAxiosError) == NetworkErrorMessage
  {
  }

  // One detection call

  /** What the transport did with the POST: answered with a JSON body, or
      failed. */
  datatype Reply = Replied(data: Value) | RequestFailed(error: RequestError)

  /** How the returned promise settles; every rejection is an Error. */
  datatype Settlement = Resolved(result: DetectionResult) | Rejected(message: string)

  /** The callbacks of one call in order: progress values reported before the
      promise settles, the settlement, and the progress values a timer
      reports afterwards. */
  datatype DetectRun = DetectRun(progress: seq<int>, settlement: Settlement, delayed: seq<int>)

  /** detectDeepfake. On a reply the callback gets 75 at once and 100 from a
      timer, both scheduled before the result is built; a null body then
      throws inside the try and is reported as a network error. */
  function Detect(file: AudioFile, hasCallback: bool, uploads: seq<ProgressEvent>, reply: Reply): (run: DetectRun)
    ensures run.progress == UploadReports(uploads, hasCallback)
                            + (if reply.Replied? && hasCallback then [75] else [])
    ensures run.settlement.Rejected? ==> run.settlement.message != ""
    ensures reply.RequestFailed? ==> run.delayed == [] && run.settlement == Rejected(ErrorMessage(reply.error))
    ensures reply.Replied? ==> run.delayed == (if hasCallback then [100] else [])
    ensures reply.Replied? && !reply.data.JNull? ==> run.settlement == Resolved(MergeResult(reply.data, file).value)
    ensures reply.Replied? && reply.data.JNull? ==> run.settlement == Rejected(NetworkErrorMessage)
  {
    var sent := UploadReports(uploads, hasCallback);
    match reply
    case RequestFailed(e) => DetectRun(sent, Rejected(ErrorMessage(e)), [])
    case Replied(data) =>
      var tail := if hasCallback then [75] else [];
      var delayed := if hasCallback then [100] else [];
      match MergeResult(data, file)
      case Some(r) => DetectRun(sent + tail, Resolved(r), delayed)
      case None => DetectRun(sent + tail, Rejected(ErrorMessage(NonAxiosError)), delayed)
  }

  /** With a callback and a well-ordered upload, every value the callback
      receives, timer included, lies in [0, 100] and they never decrease;
      after a reply the last two are 75 and then 100. */
  lemma DetectProgressOrdered(file: AudioFile, uploads: seq<ProgressEvent>, total: nat, reply: Reply)
    requires WellOrderedUpload(uploads, total)
    ensures var run := Detect(file, true, uploads, reply);
      var all := run.progress + run.delayed;
      && NonDecreasing(all)
      && (forall i :: 0 <= i < |all| ==> 0 <= all[i] <= 100)
      && (reply.Replied? ==> |all| >= 2 && all[|all| - 2] == 75 && all[|all| - 1] == 100)
  {
    UploadReportsOrdered(uploads, total);
    var run := Detect(file, true, uploads, reply);
    var ps := UploadReports(uploads, true);
    var tail := if reply.Replied? then [75, 100] else [];
    assert run.progress + run.delayed == ps + tail;
    ProcessingTailOrdered(ps, tail);
  }

  /** Values within [0, 50] in order, followed by nothing or by 75 and 100,
      stay in order within [0, 100]. */
  lemma ProcessingTailOrdered(ps: seq<int>, tail: seq<int>)
    requires NonDecreasing(ps) && forall i :: 0 <= i < |ps| ==> 0 <= ps[i] <= 50
    requires tail == [] || tail == [75, 100]
    ensures NonDecreasing(ps + tail)
    ensures forall i :: 0 <= i < |ps + tail| ==> 0 <= (ps + tail)[i] <= 100
  {
    var all := ps + tail;
    forall i, j | 0 <= i < j < |all|
      ensures all[i] <= all[j]
    {
      if j < |ps| {
        assert all[i] == ps[i] && all[j] == ps[j];
      } else if i < |ps| {
        assert all[i] == ps[i];
      }
    }
  }

  // Health

  /** What the GET did: the server answered with a status, or the request
      failed (timeout, unreachable). */
  datatype HealthProbe = Answered(status: int) | Unreachable

  /** axios resolves only 2xx answers; anything else rejects. */
  predicate AxiosResolves(status: int) {
    200 <= status < 300
  }

  /** healthCheck: the resolved response's status compared with 200, and
      false from the catch for every rejection. */
  function HealthCheck(probe: HealthProbe): (online: bool)
    ensures online <==> probe == Answered(200)
  {
    match probe
    case Unreachable => false
    case Answered(status) => if AxiosResolves(status) then status == 200 else false
  }
}
