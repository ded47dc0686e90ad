/** The client's shared records: the file handed to the validator, the
    validation verdict, the detection result and the upload state. */
module Types {
  import opened Wrappers
  import opened Json

  /** The parts of a browser `File` the client reads. */
  datatype AudioFile = AudioFile(name: string, size: nat, mimeType: string)

  datatype FileValidationResult = FileValidationResult(isValid: bool, error: Option<string>)

  /** A detection result as the client holds it: the server's JSON object with
      `file_info` rewritten by the client. The declared fields (is_deepfake,
      confidence, processing_time, model_version, file_info) are keys of it. */
  type DetectionResult = Object

  datatype UploadState = UploadState(
    uploading: bool,
    progress: int,
    error: Option<string>,
    result: Option<DetectionResult>)

  datatype AnalysisStatus = Idle | Uploading | Processing | Completed | Error

  /** `isLoading`: the statuses during which a request is in flight. */
  predicate IsLoading(status: AnalysisStatus) {
    status == Uploading || status == Processing
  }
}
