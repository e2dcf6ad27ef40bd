/** The upload form (app/components/VideoUploadForm.tsx): its state, the file
    check, the input and file handlers, the ordered submit validation, the
    progress steps of a submit, and the record it posts to `/api/video`.

    The two network steps of a submit are inputs: how the ImageKit upload
    ended, and how the `/api/video` call ended. */
module VideoUploadForm {
  import opened Outcomes
  import opened Text
  import opened VideoRoute

  /** The part of a browser `File` the form looks at. */
  datatype VideoFile = VideoFile(name: string, mimeType: string, size: nat)

  /** 100 MiB, the largest accepted file. */
  const MaxVideoSize: nat := 100 * 1024 * 1024

  /** The form inputs `handleInputChange` writes to (their `name` attribute). */
  datatype FormField = Title | Description

  /** How `uploadToImageKit` ended. */
  datatype UploadOutcome = Uploaded(url: string, thumbnailUrl: Option<string>) | UploadFailed

  /** How `createVideoRecord` ended: saved, or a non-OK reply whose body may
      carry an `error` string. */
  datatype RecordOutcome = RecordSaved | RecordRejected(serverError: Option<string>)

  const UploadFailedMessage := "Failed to upload video file"
  const SaveFailedMessage := "Failed to save video"
  const UploadedMessage := "Video uploaded successfully! Redirecting to home page..."

  /** The error `validateFile` reports, or `None` when the file is accepted:
      the type must start with "video/", then the size must not exceed 100 MiB. */
  function FileProblem(file: VideoFile): (r: Option<string>)
    ensures r.None? <==> StartsWith(file.mimeType, "video/") && file.size <= MaxVideoSize
    ensures !StartsWith(file.mimeType, "video/") ==> r == Some("Please select a valid video file")
    ensures StartsWith(file.mimeType, "video/") && file.size > MaxVideoSize ==>
              r == Some("Video file size must be less than 100MB")
  {
    if !StartsWith(file.mimeType, "video/") then Some("Please select a valid video file")
    else if file.size > MaxVideoSize then Some("Video file size must be less than 100MB")
    else None
  }

  /** A file of exactly 100 MiB is accepted; one byte more is not. */
  lemma SizeLimitIsInclusive(name: string, mimeType: string)
    requires StartsWith(mimeType, "video/")
    ensures FileProblem(VideoFile(name, mimeType, 104857600)).None?
    ensures FileProblem(VideoFile(name, mimeType, 104857601)).Some?
  {
  }

  /** `uploadResult.thumbnailUrl || uploadResult.url`: a non-empty thumbnail
      URL wins; a missing or empty one falls back to the video URL. */
  function ThumbnailFor(url: string, thumbnailUrl: Option<string>): (t: string)
    ensures !IsFalsy(thumbnailUrl) ==> t == thumbnailUrl.value
    ensures IsFalsy(thumbnailUrl) ==> t == url
  {
    if thumbnailUrl.None? || thumbnailUrl.value == "" then url else thumbnailUrl.value
  }

  /** The JSON body `createVideoRecord` posts: trimmed text, the two URLs, a
      fixed 1080 x 1920 transformation at quality 80, and no `controls`. */
  function RecordPayload(title: string, description: string, videoUrl: string, thumbnailUrl: string): VideoInput {
    VideoInput(
      Some(Trim(title)), Some(Trim(description)), Some(videoUrl), Some(thumbnailUrl),
      None, Some(TransformationInput(Some(1920), Some(1080), Some(80))))
  }

  /** The route stores what the form sends: for a title and description that
      are not blank and a non-empty upload URL, `/api/video` accepts the
      payload and keeps its trimmed text, its URLs, `controls` true and the
      1920 / 1080 / 80 transformation. */
  lemma {:induction false} RouteAcceptsFormPayload(
    title: string, description: string, url: string, thumbnailUrl: Option<string>)
    requires Trim(title) != "" && Trim(description) != "" && url != ""
    ensures var thumb := ThumbnailFor(url, thumbnailUrl);
      PrepareVideo(RecordPayload(title, description, url, thumb))
        == Some(VideoData(Trim(title), Trim(description), url, thumb, true, Transformation(1920, 1080, 80)))
  {
    TrimIdempotent(title);
    TrimIdempotent(description);
  }

  /** The component's state. */
  class UploadForm {
    var title: string
    var description: string
    var videoFile: Option<VideoFile>
    var uploading: bool
    var uploadProgress: nat
    var error: string
    var success: string
    /** Every value passed to `setUploadProgress`, in order. */
    ghost var progressTrail: seq<nat>

    constructor ()
      ensures title == "" && description == "" && videoFile.None?
      ensures !uploading && uploadProgress == 0 && error == "" && success == ""
      ensures progressTrail == []
    {
      title, description, videoFile := "", "", None;
      uploading, uploadProgress := false, 0;
      error, success := "", "";
      progressTrail := [];
    }

    /** `isFormValid`: title and description not blank, a file chosen, and no
        upload running. */
    predicate IsFormValid()
      reads this
    {
      Trim(title) != "" && Trim(description) != "" && videoFile.Some? && !uploading
    }

    /** The submit validation in its order: title, then description (both
        trimmed), then file. `None` when all pass. */
    function SubmitProblem(): (r: Option<string>)
      reads this
      ensures Trim(title) == "" ==> r == Some("Please enter a video title")
      ensures Trim(title) != "" && Trim(description) == "" ==> r == Some("Please enter a video description")
      ensures Trim(title) != "" && Trim(description) != "" && videoFile.None? ==> r == Some("Please select a video file")
      ensures r.None? <==> Trim(title) != "" && Trim(description) != "" && videoFile.Some?
    {
      if Trim(title) == "" then Some("Please enter a video title")
      else if Trim(description) == "" then Some("Please enter a video description")
      else if videoFile.None? then Some("Please select a video file")
      else None
    }

    /** The submit button is enabled exactly when the submit validation would
        pass and no upload is running. */
    lemma FormValidMeansSubmitPasses()
      ensures IsFormValid() <==> SubmitProblem().None? && !uploading
    {
    }

    /** `handleInputChange`: write the field, clear the error and the success
        message. */
    method HandleInputChange(field: FormField, value: string)
      modifies this`title, this`description, this`error, this`success
      ensures field == Title ==> title == value && description == old(description)
      ensures field == Description ==> description == value && title == old(title)
      ensures error == "" && success == ""
    {
      match field {
        case Title => title := value;
        case Description => description := value;
      }
      error := "";
      success := "";
    }

    /** `validateFile`: report the file's problem, if any, in `error`. */
    method ValidateFile(file: VideoFile) returns (ok: bool)
      modifies this`error
      ensures ok <==> FileProblem(file).None?
      ensures error == if ok then old(error) else FileProblem(file).value
    {
      var problem := FileProblem(file);
      if problem.Some? {
        error := problem.value;
        return false;
      }
      return true;
    }

    /** `handleFileSelect`: an accepted file replaces the chosen one and clears
        both messages; a rejected one leaves the choice alone and sets the error. */
    method HandleFileSelect(file: VideoFile)
      modifies this`videoFile, this`error, this`success
      ensures FileProblem(file).None? ==> videoFile == Some(file) && error == "" && success == ""
      ensures FileProblem(file).Some? ==>
                videoFile == old(videoFile) && error == FileProblem(file).value && success == old(success)
    {
      var ok := ValidateFile(file);
      if ok {
        videoFile := Some(file);
        error := "";
        success := "";
      }
    }

    /** `removeFile`: drop the chosen file and clear both messages. */
    method RemoveFile()
      modifies this`videoFile, this`error, this`success
      ensures videoFile.None? && error == "" && success == ""
    {
      videoFile := None;
      error := "";
      success := "";
    }

    /** `handleSubmit`. Returns the record posted to `/api/video`, if the
        submit got that far. */
    method HandleSubmit(upload: UploadOutcome, record: RecordOutcome) returns (sent: Option<VideoInput>)
      modifies this`uploading, this`uploadProgress, this`error, this`success, this`progressTrail
      ensures old(SubmitProblem()).Some? ==>
                && error == old(SubmitProblem()).value && success == "" && sent.None?
                && uploading == old(uploading) && uploadProgress == old(uploadProgress)
                && progressTrail == old(progressTrail)
      ensures old(SubmitProblem()).None? ==> UploadSteps(upload, record, sent, old(progressTrail))
    {
      error := "";
      success := "";
      var problem := SubmitProblem();
      if problem.Some? {
        error := problem.value;
        return None;
      }
      sent := Upload(upload, record);
    }

    /** What a submit that passed validation leaves behind: `uploading` and the
        progress back at false and 0; the progress values 0, 25, then 75 and
        100 as far as the upload got, then 0; the record sent once the file is
        uploaded; and the success message or the error of the step that failed. */
    ghost predicate UploadSteps(upload: UploadOutcome, record: RecordOutcome, sent: Option<VideoInput>, trailBefore: seq<nat>)
      reads this
    {
      && !uploading && uploadProgress == 0
      && match upload
         case UploadFailed =>
           && progressTrail == trailBefore + [0, 25, 0]
           && error == UploadFailedMessage && success == "" && sent.None?
         case Uploaded(url, thumbnailUrl) =>
           && sent == Some(RecordPayload(title, description, url, ThumbnailFor(url, thumbnailUrl)))
           && match record
              case RecordSaved =>
                progressTrail == trailBefore + [0, 25, 75, 100, 0] && error == "" && success == UploadedMessage
              case RecordRejected(serverError) =>
                && progressTrail == trailBefore + [0, 25, 75, 0] && success == ""
                && error == (if serverError.None? || serverError.value == "" then SaveFailedMessage
                             else serverError.value)
    }

    /** The `try` / `finally` part of `handleSubmit`: the two network steps and
        the progress they report. */
    method Upload(upload: UploadOutcome, record: RecordOutcome) returns (sent: Option<VideoInput>)
      requires error == "" && success == ""
      modifies this`uploading, this`uploadProgress, this`error, this`success, this`progressTrail
      ensures UploadSteps(upload, record, sent, old(progressTrail))
    {
      uploading := true;
      SetProgress(0);
      SetProgress(25);
      match upload {
        case UploadFailed =>
          error := UploadFailedMessage;
          sent := None;
        case Uploaded(url, thumbnailUrl) =>
          sent := CreateRecord(url, thumbnailUrl, record);
      }
      uploading := false;
      SetProgress(0);
    }

    /** The second step of a submit, after the file is uploaded: report 75,
        post the record, and on success report 100 and set the success
        message; on failure set the server's error or a fixed one. */
    method CreateRecord(url: string, thumbnailUrl: Option<string>, record: RecordOutcome) returns (sent: Option<VideoInput>)
      requires error == "" && success == ""
      modifies this`uploadProgress, this`error, this`success, this`progressTrail
      ensures sent == Some(RecordPayload(title, description, url, ThumbnailFor(url, thumbnailUrl)))
      ensures record.RecordSaved? ==>
                progressTrail == old(progressTrail) + [75, 100] && error == "" && success == UploadedMessage
      ensures record.RecordRejected? ==>
                && progressTrail == old(progressTrail) + [75] && success == ""
                && error == (if record.serverError.None? || record.serverError.value == "" then SaveFailedMessage
                             else record.serverError.value)
    {
      SetProgress(75);
      sent := Some(RecordPayload(title, description, url, ThumbnailFor(url, thumbnailUrl)));
      match record {
        case RecordSaved =>
          SetProgress(100);
          success := UploadedMessage;
        case RecordRejected(serverError) =>
          error := if serverError.None? || serverError.value == "" then SaveFailedMessage else serverError.value;
      }
    }

    /** `setUploadProgress(p)`. */
    method SetProgress(p: nat)
      modifies this`uploadProgress, this`progressTrail
      ensures uploadProgress == p && progressTrail == old(progressTrail) + [p]
    {
      uploadProgress := p;
      progressTrail := progressTrail + [p];
    }
  }
}
